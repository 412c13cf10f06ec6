// cidr.go: a set of IPv4 and IPv6 networks searched by bisection.
module Cidr {
  import opened Common
  import opened Numbers
  import opened Sorting
  import opened Wire

  // ---- Networks as intervals of numbers ----

  // The addresses start, ..., start + size - 1.
  datatype Block = Block(start: nat, size: nat)

  predicate In(b: Block, a: nat)
    requires b.size > 0
  {
    a - a % b.size == b.start
  }

  ghost predicate Blocks(bs: seq<Block>) {
    forall i :: 0 <= i < |bs| ==> bs[i].size > 0 && In(bs[i], bs[i].start)
  }

  ghost predicate InOrder(bs: seq<Block>) {
    forall i, j :: 0 <= i < j < |bs| ==> bs[i].start <= bs[j].start
  }

  // The address behind the last one.
  function End(b: Block): (e: nat) {
    b.start + b.size
  }

  // The last block that starts at or below a.
  predicate At(bs: seq<Block>, k: int, a: nat) {
    0 <= k < |bs| && bs[k].start <= a && (k + 1 < |bs| ==> a < bs[k + 1].start)
  }

  // A block whose first address is its own is an interval.
  lemma InIsInterval(b: Block, a: nat)
    requires b.size > 0 && In(b, b.start)
    ensures In(b, a) <==> b.start <= a < End(b)
  {
    var q := b.start / b.size;
    assert b.start == q * b.size + b.start % b.size;
    if b.start <= a < End(b) {
      ModUnique(a, b.size, q, a - b.start);
    }
  }

  // Testing only the last candidate finds every address of every block: whenever an earlier
  // block j reaches beyond the end of a later block k, the block after k starts no later than
  // that end.
  ghost predicate Searchable(bs: seq<Block>) {
    forall j, k :: 0 <= j < k < |bs| ==> !Hides(bs, j, k)
  }

  // Block j contains block k and reaches beyond it, and nothing takes over where k ends.
  ghost predicate Hides(bs: seq<Block>, j: nat, k: nat)
    requires j < k < |bs|
  {
    && bs[k].start < End(bs[j]) && End(bs[k]) < End(bs[j])
    && (k + 1 < |bs| ==> End(bs[k]) < bs[k + 1].start)
  }

  ghost predicate FoundIn(bs: seq<Block>, a: nat)
    requires Blocks(bs)
  {
    exists k :: At(bs, k, a) && In(bs[k], a)
  }

  ghost predicate ScannedIn(bs: seq<Block>, a: nat)
    requires Blocks(bs)
  {
    exists k :: 0 <= k < |bs| && In(bs[k], a)
  }

  lemma {:induction false} SomeLast(bs: seq<Block>, j: nat, a: nat) returns (k: nat)
    requires InOrder(bs) && j < |bs| && bs[j].start <= a
    ensures j <= k && At(bs, k, a)
    decreases |bs| - j
  {
    k := j;
    if j + 1 < |bs| && bs[j + 1].start <= a {
      k := SomeLast(bs, j + 1, a);
    }
  }

  lemma SearchableSuffices(bs: seq<Block>, a: nat)
    requires Blocks(bs) && InOrder(bs) && Searchable(bs)
    ensures FoundIn(bs, a) <==> ScannedIn(bs, a)
  {
    if j: nat :| j < |bs| && In(bs[j], a) {
      InIsInterval(bs[j], a);
      var k := SomeLast(bs, j, a);
      InIsInterval(bs[k], a);
      if k > j {
        assert !Hides(bs, j, k);
      }
    }
  }

  // The same, for addresses outside lo..hi-1: what is hidden lies between them.
  ghost predicate SearchableOutside(bs: seq<Block>, lo: nat, hi: nat) {
    forall j, k :: 0 <= j < k < |bs| ==> !HidesOutside(bs, j, k, lo, hi)
  }

  // Where the block j that k hides stops being the one to ask.
  function GapEnd(bs: seq<Block>, j: nat, k: nat): (e: nat)
    requires j < k < |bs|
  {
    if k + 1 < |bs| then Min(End(bs[j]), bs[k + 1].start) else End(bs[j])
  }

  ghost predicate HidesOutside(bs: seq<Block>, j: nat, k: nat, lo: nat, hi: nat)
    requires j < k < |bs|
  {
    Hides(bs, j, k) && !(lo <= End(bs[k]) && GapEnd(bs, j, k) <= hi)
  }

  lemma SearchableOutsideSuffices(bs: seq<Block>, lo: nat, hi: nat, a: nat)
    requires Blocks(bs) && InOrder(bs) && SearchableOutside(bs, lo, hi) && !(lo <= a < hi)
    ensures FoundIn(bs, a) <==> ScannedIn(bs, a)
  {
    if j: nat :| j < |bs| && In(bs[j], a) {
      InIsInterval(bs[j], a);
      var k := SomeLast(bs, j, a);
      InIsInterval(bs[k], a);
      if k > j {
        assert !HidesOutside(bs, j, k, lo, hi);
      }
    }
  }

  lemma HiddenOutside(bs: seq<Block>, j: nat, k: nat, lo: nat, hi: nat) returns (a: nat)
    requires Blocks(bs) && InOrder(bs) && j < k < |bs| && HidesOutside(bs, j, k, lo, hi)
    ensures a < End(bs[j]) && !(lo <= a < hi) && ScannedIn(bs, a) && !FoundIn(bs, a)
  {
    a := if lo <= End(bs[k]) then GapEnd(bs, j, k) - 1 else End(bs[k]);
    NestedNetworkHides(bs, j, k, a);
  }

  // An address of block j from the end of the hidden block k on, up to the next block, is
  // missed.
  lemma NestedNetworkHides(bs: seq<Block>, j: nat, k: nat, a: nat)
    requires Blocks(bs) && InOrder(bs) && j < k < |bs|
    requires End(bs[k]) <= a < End(bs[j]) && (k + 1 < |bs| ==> a < bs[k + 1].start)
    ensures ScannedIn(bs, a) && !FoundIn(bs, a)
  {
    InIsInterval(bs[j], a);
    InIsInterval(bs[k], a);
    assert At(bs, k, a);
    forall i | At(bs, i, a)
      ensures i == k
    {
      OnlyOneAt(bs, k, i, a);
    }
  }

  lemma OnlyOneAt(bs: seq<Block>, k: int, j: int, a: nat)
    requires InOrder(bs) && At(bs, k, a) && At(bs, j, a)
    ensures j == k
  {
  }

  // ---- The two families ----

  // uint32 network address and mask.
  datatype Entry4 = Entry4(start: nat, mask: nat)

  // Sixteen-byte network address and mask.
  datatype Entry6 = Entry6(start: Bytes, mask: Bytes)

  predicate Hit4(e: Entry4, a: nat) {
    And(a, e.mask, 32) == e.start
  }

  predicate Hit6(e: Entry6, a: Bytes) {
    |a| == |e.mask| == |e.start| && AndBytes(a, e.mask) == e.start
  }

  // A prefix mask (ones, then zeros) and an address with no bits outside it.
  ghost predicate Canonical(start: nat, mask: nat, w: nat) {
    start < Pow2(w) && And(start, mask, w) == start && exists k :: PrefixOf(mask, w, k)
  }

  ghost predicate PrefixOf(mask: nat, w: nat, k: nat) {
    k <= w && mask == Pow2(w) - Pow2(k)
  }

  ghost predicate Canonical4(e: Entry4) {
    Canonical(e.start, e.mask, 32)
  }

  ghost predicate Canonical6(e: Entry6) {
    |e.start| == |e.mask| == 16 && Canonical(Val(e.start), Val(e.mask), 128)
  }

  function BlockOf(start: nat, mask: nat, w: nat): (b: Block) {
    Block(start, if mask < Pow2(w) then Pow2(w) - mask else 0)
  }

  lemma MaskIsBlock(start: nat, mask: nat, w: nat, a: nat)
    requires Canonical(start, mask, w) && a < Pow2(w)
    ensures BlockOf(start, mask, w).size > 0
    ensures And(a, mask, w) == start <==> In(BlockOf(start, mask, w), a)
  {
    var k :| PrefixOf(mask, w, k);
    AndPrefix(a, w, k);
  }

  function Blocks4(es: seq<Entry4>): (bs: seq<Block>)
    ensures |bs| == |es|
  {
    seq(|es|, i requires 0 <= i < |es| => BlockOf(es[i].start, es[i].mask, 32))
  }

  function Blocks6(es: seq<Entry6>): (bs: seq<Block>)
    ensures |bs| == |es|
  {
    seq(|es|, i requires 0 <= i < |es| => BlockOf(Val(es[i].start), Val(es[i].mask), 128))
  }

  lemma Hit4IsIn(e: Entry4, a: nat)
    requires Canonical4(e) && a < Pow2(32)
    ensures BlockOf(e.start, e.mask, 32).size > 0
    ensures Hit4(e, a) <==> In(BlockOf(e.start, e.mask, 32), a)
  {
    MaskIsBlock(e.start, e.mask, 32, a);
  }

  lemma Hit6IsIn(e: Entry6, a: Bytes)
    requires Canonical6(e) && |a| == 16
    ensures BlockOf(Val(e.start), Val(e.mask), 128).size > 0
    ensures Hit6(e, a) <==> In(BlockOf(Val(e.start), Val(e.mask), 128), Val(a))
  {
    ValBound(a);
    MaskIsBlock(Val(e.start), Val(e.mask), 128, Val(a));
    AndBytesVal(a, e.mask);
    LexIsValOrder(AndBytes(a, e.mask), e.start);
  }

  // ---- The parsed list ----

  // What net.ParseCIDR yields: network address and mask.
  datatype Net = Net(ip: Bytes, mask: Bytes)

  function Entries4(parse: string -> Option<Net>, cidrs: seq<string>): (r: seq<Entry4>) {
    if cidrs == [] then []
    else
      var front, n := Entries4(parse, cidrs[..|cidrs| - 1]), parse(cidrs[|cidrs| - 1]);
      if n.Some? && To4(n.value.ip).Some? && |n.value.mask| == 4
      then front + [Entry4(Val(To4(n.value.ip).value), Val(n.value.mask))] else front
  }

  function Entries6(parse: string -> Option<Net>, cidrs: seq<string>): (r: seq<Entry6>)
    ensures SixteenBytes(r)
  {
    if cidrs == [] then []
    else
      var front, n := Entries6(parse, cidrs[..|cidrs| - 1]), parse(cidrs[|cidrs| - 1]);
      if n.Some? && !(To4(n.value.ip).Some? && |n.value.mask| == 4) && |n.value.ip| == 16 && |n.value.mask| == 16
      then front + [Entry6(n.value.ip, n.value.mask)] else front
  }

  predicate SixteenBytes(es: seq<Entry6>) {
    forall i :: 0 <= i < |es| ==> |es[i].start| == |es[i].mask| == 16
  }

  function Less4(): (less: (Entry4, Entry4) -> bool) {
    (a: Entry4, b: Entry4) => a.start < b.start
  }

  // bytes.Compare on the first addresses, which all have sixteen bytes.
  function Less6(): (less: (Entry6, Entry6) -> bool) {
    (a: Entry6, b: Entry6) => if |a.start| == |b.start| then Lex(a.start, b.start) else |a.start| < |b.start|
  }

  lemma Less4IsWeak()
    ensures StrictWeak(Less4())
  {
  }

  lemma Less6Compares(a: Entry6, b: Entry6)
    ensures Less6()(a, b) <==> |a.start| < |b.start| || (|a.start| == |b.start| && Val(a.start) < Val(b.start))
  {
    if |a.start| == |b.start| {
      LexIsValOrder(a.start, b.start);
    }
  }

  lemma Less6IsWeak()
    ensures StrictWeak(Less6())
  {
    var less := Less6();
    forall x, y
      ensures less(x, y) ==> !less(y, x)
    {
      Less6Compares(x, y);
      Less6Compares(y, x);
    }
    forall x, y, z
      ensures !less(y, x) && !less(z, y) ==> !less(z, x)
    {
      Less6Compares(y, x);
      Less6Compares(z, y);
      Less6Compares(z, x);
    }
  }

  // The sorted parallel slices, as one slice of pairs per family.
  datatype CidrSet = CidrSet(nets4: seq<Entry4>, nets6: seq<Entry6>)

  ghost predicate BuiltFrom(s: CidrSet, es4: seq<Entry4>, es6: seq<Entry6>) {
    && multiset(s.nets4) == multiset(es4) && InOrder(Blocks4(s.nets4))
    && multiset(s.nets6) == multiset(es6) && InOrder(Blocks6(s.nets6)) && SixteenBytes(s.nets6)
  }

  method ParseEntries(
    parse: string -> Option<Net>, cidrs: seq<string>) returns (entries4: seq<Entry4>, entries6: seq<Entry6>)
    ensures entries4 == Entries4(parse, cidrs) && entries6 == Entries6(parse, cidrs)
  {
    entries4, entries6 := [], [];
    for i := 0 to |cidrs|
      invariant entries4 == Entries4(parse, cidrs[..i]) && entries6 == Entries6(parse, cidrs[..i])
    {
      assert cidrs[..i + 1][..i] == cidrs[..i];
      var n := parse(cidrs[i]);
      if n.None? {
        continue;
      }
      var ip4 := To4(n.value.ip);
      if ip4.Some? && |n.value.mask| == 4 {
        entries4 := entries4 + [Entry4(Val(ip4.value), Val(n.value.mask))];
      } else if |n.value.ip| == 16 && |n.value.mask| == 16 {
        entries6 := entries6 + [Entry6(n.value.ip, n.value.mask)];
      }
    }
    assert cidrs[..|cidrs|] == cidrs;
  }

  method ParseCidrs(parse: string -> Option<Net>, cidrs: seq<string>) returns (s: CidrSet)
    ensures BuiltFrom(s, Entries4(parse, cidrs), Entries6(parse, cidrs))
  {
    var entries4, entries6 := ParseEntries(parse, cidrs);
    Less4IsWeak();
    var nets4 := SortBy(entries4, Less4());
    Less6IsWeak();
    var nets6 := SortBy(entries6, Less6());
    SortedSixes(entries6, nets6);
    s := CidrSet(nets4, nets6);
  }

  lemma SortedSixes(es: seq<Entry6>, r: seq<Entry6>)
    requires Ranking(es, r, Less6()) && SixteenBytes(es)
    ensures SixteenBytes(r) && InOrder(Blocks6(r))
  {
    SameElements(es, r);
    forall i | 0 <= i < |r|
      ensures |r[i].start| == |r[i].mask| == 16
    {
      assert r[i] in es;
    }
    forall i, j | 0 <= i < j < |r|
      ensures Val(r[i].start) <= Val(r[j].start)
    {
      Less6Compares(r[j], r[i]);
    }
  }

  // ---- Queries ----

  ghost predicate Found4(es: seq<Entry4>, a: nat) {
    exists k :: At(Blocks4(es), k, a) && Hit4(es[k], a)
  }

  ghost predicate Found6(es: seq<Entry6>, a: Bytes) {
    exists k :: At(Blocks6(es), k, Val(a)) && Hit6(es[k], a)
  }

  // The bisection of contains4: the last entry starting at or below the address, -1 for none.
  method LastAt4(nets: seq<Entry4>, a: nat) returns (idx: int)
    requires InOrder(Blocks4(nets))
    ensures idx == -1 || At(Blocks4(nets), idx, a)
    ensures idx == -1 ==> forall k :: !At(Blocks4(nets), k, a)
  {
    ghost var bs := Blocks4(nets);
    var lo, hi := 0, |nets| - 1;
    idx := -1;
    while lo <= hi
      invariant 0 <= lo <= |nets| && -1 <= hi < |nets| && lo <= hi + 1
      invariant idx == lo - 1
      invariant idx >= 0 ==> bs[idx].start <= a
      invariant hi + 1 < |nets| ==> a < bs[hi + 1].start
    {
      var mid := (lo + hi) / 2;
      if nets[mid].start <= a {
        idx := mid;
        lo := mid + 1;
      } else {
        hi := mid - 1;
      }
    }
  }

  // contains4: the bisection, then one test.
  method Contains4(nets: seq<Entry4>, a: nat) returns (r: bool)
    requires InOrder(Blocks4(nets))
    ensures r <==> Found4(nets, a)
  {
    var idx := LastAt4(nets, a);
    if idx < 0 {
      return false;
    }
    forall k | At(Blocks4(nets), k, a)
      ensures k == idx
    {
      OnlyOneAt(Blocks4(nets), idx, k, a);
    }
    r := And(a, nets[idx].mask, 32) == nets[idx].start;
  }

  // The byte loop at the end of contains6.
  method MatchesMask(a: Bytes, mask: Bytes, start: Bytes) returns (r: bool)
    requires |a| == |mask| == |start| == 16
    ensures r <==> AndBytes(a, mask) == start
  {
    for i := 0 to 16
      invariant forall j :: 0 <= j < i ==> AndBytes(a, mask)[j] == start[j]
    {
      if AndByte(a[i], mask[i]) != start[i] {
        assert AndBytes(a, mask)[i] != start[i];
        return false;
      }
    }
    r := true;
  }

  method LastAt6(nets: seq<Entry6>, a: Bytes) returns (idx: int)
    requires |a| == 16 && SixteenBytes(nets) && InOrder(Blocks6(nets))
    ensures idx == -1 || At(Blocks6(nets), idx, Val(a))
    ensures idx == -1 ==> forall k :: !At(Blocks6(nets), k, Val(a))
  {
    ghost var bs, v := Blocks6(nets), Val(a);
    var lo, hi := 0, |nets| - 1;
    idx := -1;
    while lo <= hi
      invariant 0 <= lo <= |nets| && -1 <= hi < |nets| && lo <= hi + 1
      invariant idx == lo - 1
      invariant idx >= 0 ==> bs[idx].start <= v
      invariant hi + 1 < |nets| ==> v < bs[hi + 1].start
    {
      var mid := (lo + hi) / 2;
      LexIsValOrder(a, nets[mid].start);
      if !Lex(a, nets[mid].start) {
        idx := mid;
        lo := mid + 1;
      } else {
        hi := mid - 1;
      }
    }
  }

  method Contains6(nets: seq<Entry6>, a: Bytes) returns (r: bool)
    requires |a| == 16 && SixteenBytes(nets) && InOrder(Blocks6(nets))
    ensures r <==> Found6(nets, a)
  {
    var idx := LastAt6(nets, a);
    if idx < 0 {
      return false;
    }
    forall k | At(Blocks6(nets), k, Val(a))
      ensures k == idx
    {
      OnlyOneAt(Blocks6(nets), idx, k, Val(a));
    }
    r := MatchesMask(a, nets[idx].mask, nets[idx].start);
  }

  ghost predicate Answer(s: CidrSet, ip: Bytes) {
    if To4(ip).Some? then Found4(s.nets4, Val(To4(ip).value)) else |ip| == 16 && Found6(s.nets6, ip)
  }

  method Contains(s: CidrSet, ip: Bytes) returns (r: bool)
    requires InOrder(Blocks4(s.nets4)) && InOrder(Blocks6(s.nets6)) && SixteenBytes(s.nets6)
    ensures r <==> Answer(s, ip)
  {
    var ip4 := To4(ip);
    if ip4.Some? {
      r := Contains4(s.nets4, Val(ip4.value));
    } else if |ip| == 16 {
      r := Contains6(s.nets6, ip);
    } else {
      r := false;
    }
  }

  // ---- Laws ----

  ghost predicate Scan4(es: seq<Entry4>, a: nat) {
    exists i :: 0 <= i < |es| && Hit4(es[i], a)
  }

  ghost predicate Scan6(es: seq<Entry6>, a: Bytes) {
    exists i :: 0 <= i < |es| && Hit6(es[i], a)
  }

  // Two readings of "covered by any network in the set".  In the wider one some network of either
  // list contains the address, in its four-byte form or in its sixteen-byte form.
  ghost predicate Covered(es4: seq<Entry4>, es6: seq<Entry6>, ip: Bytes) {
    || (To4(ip).Some? && Scan4(es4, Val(To4(ip).value)))
    || (To16(ip).Some? && Scan6(es6, To16(ip).value))
  }

  // net.IPNet.Contains of a parsed IPv6 prefix: addresses and networks that can be shortened to
  // four bytes are, and the lengths must agree.
  ghost predicate InNet6(e: Entry6, ip: Bytes) {
    if To4(e.start).Some? && |e.mask| == 16
    then To4(ip).Some? && AndBytes(To4(ip).value, e.mask[12..]) == To4(e.start).value
    else To4(ip).None? && Hit6(e, ip)
  }

  ghost predicate SomeNet6(es: seq<Entry6>, ip: Bytes) {
    exists i :: 0 <= i < |es| && InNet6(es[i], ip)
  }

  // In the narrower one net.IPNet.Contains holds of some network: ::/0 has no IPv4 address in it.
  ghost predicate Contained(es4: seq<Entry4>, es6: seq<Entry6>, ip: Bytes) {
    (To4(ip).Some? && Scan4(es4, Val(To4(ip).value))) || SomeNet6(es6, ip)
  }

  ghost predicate AllCanonical4(es: seq<Entry4>) {
    forall i :: 0 <= i < |es| ==> Canonical4(es[i])
  }

  ghost predicate AllCanonical6(es: seq<Entry6>) {
    forall i :: 0 <= i < |es| ==> Canonical6(es[i])
  }

  // No address lies in two networks of the list, in whatever order they come.
  ghost predicate Disjoint4(es: seq<Entry4>) {
    forall i, j, a: nat :: 0 <= i < |es| && 0 <= j < |es| && a < Pow2(32) && Hit4(es[i], a) && Hit4(es[j], a) ==> i == j
  }

  ghost predicate Disjoint6(es: seq<Entry6>) {
    forall i, j, a :: 0 <= i < |es| && 0 <= j < |es| && |a| == 16 && Hit6(es[i], a) && Hit6(es[j], a) ==> i == j
  }

  lemma ScanIgnoresOrder4(es: seq<Entry4>, r: seq<Entry4>, a: nat)
    requires multiset(r) == multiset(es)
    ensures Scan4(r, a) ==> Scan4(es, a)
  {
    SameElements(es, r);
    if i :| 0 <= i < |r| && Hit4(r[i], a) {
      assert r[i] in es;
    }
  }

  lemma ScanIgnoresOrder6(es: seq<Entry6>, r: seq<Entry6>, a: Bytes)
    requires multiset(r) == multiset(es)
    ensures Scan6(r, a) ==> Scan6(es, a)
  {
    SameElements(es, r);
    if i :| 0 <= i < |r| && Hit6(r[i], a) {
      assert r[i] in es;
    }
  }

  // For any list at all, a positive answer is justified by a network of the list.
  lemma AnswerIsJustified(es4: seq<Entry4>, es6: seq<Entry6>, s: CidrSet, ip: Bytes)
    requires BuiltFrom(s, es4, es6) && Answer(s, ip)
    ensures Covered(es4, es6, ip)
  {
    if To4(ip).Some? {
      ScanIgnoresOrder4(es4, s.nets4, Val(To4(ip).value));
    } else {
      ScanIgnoresOrder6(es6, s.nets6, ip);
    }
  }

  lemma AlignedEnds(start: nat, p: nat, n: nat)
    requires p >= 1 && start % p == 0 && start < n * p
    ensures start + p <= n * p
  {
    var q := start / p;
    assert start == q * p;
    if q >= n {
      MulMono(n, q, p);
    } else {
      MulGap(q, n, p);
    }
  }

  lemma PowerEnds(start: nat, k: nat, w: nat)
    requires k <= w && start % Pow2(k) == 0 && start < Pow2(w)
    ensures start + Pow2(k) <= Pow2(w)
  {
    PowAdd(w - k, k);
    AlignedEnds(start, Pow2(k), Pow2(w - k));
  }

  lemma PrefixSize(start: nat, mask: nat, w: nat) returns (k: nat)
    requires Canonical(start, mask, w)
    ensures k <= w && BlockOf(start, mask, w).size == Pow2(k) && In(BlockOf(start, mask, w), start)
  {
    MaskIsBlock(start, mask, w, start);
    k :| PrefixOf(mask, w, k);
  }

  lemma Aligned(b: Block)
    requires b.size > 0 && In(b, b.start)
    ensures b.start % b.size == 0
  {
  }

  // A canonical network ends within its address space.
  lemma EndsInSpace(start: nat, mask: nat, w: nat)
    requires Canonical(start, mask, w)
    ensures var b := BlockOf(start, mask, w); b.size > 0 && In(b, start) && End(b) <= Pow2(w)
  {
    var b := BlockOf(start, mask, w);
    var k := PrefixSize(start, mask, w);
    Aligned(b);
    PowerEnds(start, k, w);
  }

  lemma BlocksAre4(es: seq<Entry4>, r: seq<Entry4>)
    requires multiset(r) == multiset(es) && AllCanonical4(es)
    ensures AllCanonical4(r) && Blocks(Blocks4(r))
    ensures forall i :: 0 <= i < |r| ==> End(Blocks4(r)[i]) <= Pow2(32)
  {
    SameElements(es, r);
    forall i | 0 <= i < |r|
      ensures Canonical4(r[i]) && Blocks4(r)[i].size > 0 && In(Blocks4(r)[i], r[i].start)
      ensures End(Blocks4(r)[i]) <= Pow2(32)
    {
      assert r[i] in es;
      EndsInSpace(r[i].start, r[i].mask, 32);
    }
  }

  lemma BlocksAre6(es: seq<Entry6>, r: seq<Entry6>)
    requires multiset(r) == multiset(es) && AllCanonical6(es)
    ensures AllCanonical6(r) && Blocks(Blocks6(r))
    ensures forall i :: 0 <= i < |r| ==> End(Blocks6(r)[i]) <= Pow2(128)
  {
    SameElements(es, r);
    forall i | 0 <= i < |r|
      ensures Canonical6(r[i]) && Blocks6(r)[i].size > 0 && In(Blocks6(r)[i], Val(r[i].start))
      ensures End(Blocks6(r)[i]) <= Pow2(128)
    {
      assert r[i] in es;
      EndsInSpace(Val(r[i].start), Val(r[i].mask), 128);
    }
  }

  // Search and scan over entries are search and scan over their blocks.
  lemma AsBlocks4(es: seq<Entry4>, r: seq<Entry4>, a: nat)
    requires multiset(r) == multiset(es) && AllCanonical4(r) && Blocks(Blocks4(r)) && a < Pow2(32)
    ensures Found4(r, a) <==> FoundIn(Blocks4(r), a)
    ensures Scan4(es, a) <==> ScannedIn(Blocks4(r), a)
  {
    forall k | 0 <= k < |r|
      ensures Hit4(r[k], a) <==> In(Blocks4(r)[k], a)
    {
      Hit4IsIn(r[k], a);
    }
    ScanIgnoresOrder4(es, r, a);
    ScanIgnoresOrder4(r, es, a);
  }

  lemma AsBlocks6(es: seq<Entry6>, r: seq<Entry6>, a: Bytes)
    requires multiset(r) == multiset(es) && AllCanonical6(r) && Blocks(Blocks6(r)) && |a| == 16
    ensures Found6(r, a) <==> FoundIn(Blocks6(r), Val(a))
    ensures Scan6(es, a) <==> ScannedIn(Blocks6(r), Val(a))
  {
    forall k | 0 <= k < |r|
      ensures Hit6(r[k], a) <==> In(Blocks6(r)[k], Val(a))
    {
      Hit6IsIn(r[k], a);
    }
    ScanIgnoresOrder6(es, r, a);
    ScanIgnoresOrder6(r, es, a);
  }

  // The exact condition, IPv4: sorting, bisection and one mask test answer as a linear scan
  // over all networks, for every address, if and only if no network of the sorted list hides
  // the rest of an earlier one.
  lemma Search4ExactlyWhen(es: seq<Entry4>, r: seq<Entry4>)
    requires multiset(r) == multiset(es) && InOrder(Blocks4(r)) && AllCanonical4(es)
    ensures (forall a: nat :: a < Pow2(32) ==> (Found4(r, a) <==> Scan4(es, a))) <==> Searchable(Blocks4(r))
  {
    BlocksAre4(es, r);
    var bs := Blocks4(r);
    if Searchable(bs) {
      forall a: nat | a < Pow2(32)
        ensures Found4(r, a) <==> Scan4(es, a)
      {
        AsBlocks4(es, r, a);
        SearchableSuffices(bs, a);
      }
    } else {
      var j: nat, k: nat :| j < k < |bs| && Hides(bs, j, k);
      AsBlocks4(es, r, End(bs[k]));
      NestedNetworkHides(bs, j, k, End(bs[k]));
    }
  }

  // The exact condition, IPv6.
  lemma Search6ExactlyWhen(es: seq<Entry6>, r: seq<Entry6>)
    requires multiset(r) == multiset(es) && InOrder(Blocks6(r)) && AllCanonical6(es)
    ensures (forall a :: |a| == 16 ==> (Found6(r, a) <==> Scan6(es, a))) <==> Searchable(Blocks6(r))
  {
    BlocksAre6(es, r);
    var bs := Blocks6(r);
    if Searchable(bs) {
      forall a: Bytes | |a| == 16
        ensures Found6(r, a) <==> Scan6(es, a)
      {
        AsBlocks6(es, r, a);
        SearchableSuffices(bs, Val(a));
      }
    } else {
      var j: nat, k: nat :| j < k < |bs| && Hides(bs, j, k);
      var a := OfVal(End(bs[k]), 16);
      AsBlocks6(es, r, a);
      NestedNetworkHides(bs, j, k, End(bs[k]));
    }
  }

  lemma DisjointIsSearchable4(es: seq<Entry4>, r: seq<Entry4>)
    requires multiset(r) == multiset(es) && InOrder(Blocks4(r)) && AllCanonical4(es) && Disjoint4(es)
    ensures Searchable(Blocks4(r))
  {
    BlocksAre4(es, r);
    var bs := Blocks4(r);
    forall j: nat, k: nat | j < k < |bs|
      ensures !Hides(bs, j, k)
    {
      var x := r[k].start;
      InIsInterval(bs[j], x);
      InIsInterval(bs[k], x);
      Hit4IsIn(r[j], x);
      Hit4IsIn(r[k], x);
      var i, l := PositionsIn(es, r, j, k);
    }
  }

  lemma DisjointIsSearchable6(es: seq<Entry6>, r: seq<Entry6>)
    requires multiset(r) == multiset(es) && InOrder(Blocks6(r)) && AllCanonical6(es) && Disjoint6(es)
    ensures Searchable(Blocks6(r))
  {
    BlocksAre6(es, r);
    var bs := Blocks6(r);
    forall j: nat, k: nat | j < k < |bs|
      ensures !Hides(bs, j, k)
    {
      var x := r[k].start;
      InIsInterval(bs[j], Val(x));
      InIsInterval(bs[k], Val(x));
      Hit6IsIn(r[j], x);
      Hit6IsIn(r[k], x);
      var i, l := PositionsIn(es, r, j, k);
    }
  }

  // ---- The whole set ----

  // The sixteen-byte forms of the IPv4 addresses are the numbers MappedLow() ... MappedEnd() - 1.
  ghost function MappedLow(): (n: nat) {
    Val(V4_IN_V6) * Pow2(32)
  }

  ghost function MappedEnd(): (n: nat) {
    MappedLow() + Pow2(32)
  }

  lemma MappedIsRange(ip: Bytes)
    requires |ip| == 16
    ensures To4(ip).Some? <==> MappedLow() <= Val(ip) < MappedEnd()
  {
    var front, back := ip[..12], ip[12..];
    assert ip == front + back;
    ValAppend(front, back);
    ValBound(back);
    LexIsValOrder(front, V4_IN_V6);
    if Val(front) < Val(V4_IN_V6) {
      MulGap(Val(front), Val(V4_IN_V6), Pow2(32));
    } else if Val(front) > Val(V4_IN_V6) {
      MulGap(Val(V4_IN_V6), Val(front), Pow2(32));
    }
  }

  // Every IPv4 address whose sixteen-byte form lies in a listed IPv6 network lies in a listed
  // IPv4 network.
  ghost predicate MappedCovered(es4: seq<Entry4>, es6: seq<Entry6>) {
    forall a :: |a| == 4 && Scan6(es6, V4_IN_V6 + a) ==> Scan4(es4, Val(a))
  }

  // A network of IPv4 addresses written in sixteen-byte form (::ffff:1.2.3.0/120) goes into the
  // IPv6 list, and its addresses are looked up in the IPv4 list: alone, it matches nothing.
  lemma MappedNetworkIsMissed(
    parse: string -> Option<Net>, cidr: string, s: CidrSet, net: Bytes, mask: Bytes, ip: Bytes)
    requires |net| == |mask| == |ip| == 4 && AndBytes(ip, mask) == net
    requires parse(cidr) == Some(Net(V4_IN_V6 + net, ONES + mask))
    requires BuiltFrom(s, Entries4(parse, [cidr]), Entries6(parse, [cidr]))
    ensures var es4, es6 := Entries4(parse, [cidr]), Entries6(parse, [cidr]);
      Covered(es4, es6, ip) && Contained(es4, es6, ip) && !Answer(s, ip)
  {
    var e := Entry6(V4_IN_V6 + net, ONES + mask);
    assert [cidr][..0] == [];
    assert Entries4(parse, [cidr]) == [] && Entries6(parse, [cidr]) == [e];
    MappedHit(net, mask, ip);
    assert Hit6([e][0], V4_IN_V6 + ip);
    assert (ONES + mask)[12..] == mask && (V4_IN_V6 + net)[12..] == net && (V4_IN_V6 + net)[..12] == V4_IN_V6;
    assert InNet6([e][0], ip);
  }

  const ONES: Bytes := [255, 255, 255, 255, 255, 255, 255, 255, 255, 255, 255, 255]

  lemma MappedHit(net: Bytes, mask: Bytes, ip: Bytes)
    requires |net| == |mask| == |ip| == 4 && AndBytes(ip, mask) == net
    ensures AndBytes(V4_IN_V6 + ip, ONES + mask) == V4_IN_V6 + net
  {
    assert AndByte(0, 255) == 0 && AndByte(255, 255) == 255;
    var r := AndBytes(V4_IN_V6 + ip, ONES + mask);
    forall i | 0 <= i < 16
      ensures r[i] == (V4_IN_V6 + net)[i]
    {
      if i >= 12 {
        assert net[i - 12] == AndByte(ip[i - 12], mask[i - 12]);
      } else {
        assert V4_IN_V6[i] == 0 || V4_IN_V6[i] == 255;
      }
    }
  }

  // ---- Exactly when the set answers as a scan over both lists ----

  // What both readings have in common: an address that cannot be shortened is looked for in the
  // IPv6 networks, an IPv4 address in the IPv4 networks and, as via says, in IPv6 ones.
  ghost predicate CoveredVia(es4: seq<Entry4>, es6: seq<Entry6>, via: Bytes -> bool, ip: Bytes) {
    if To4(ip).Some? then Scan4(es4, Val(To4(ip).value)) || via(To4(ip).value)
    else |ip| == 16 && Scan6(es6, ip)
  }

  ghost predicate AnswersVia(es4: seq<Entry4>, es6: seq<Entry6>, via: Bytes -> bool, s: CidrSet, ip: Bytes) {
    Answer(s, ip) <==> CoveredVia(es4, es6, via, ip)
  }

  // Neither list hides an address that is looked up in it.
  ghost predicate NothingHidden(s: CidrSet) {
    Searchable(Blocks4(s.nets4)) && SearchableOutside(Blocks6(s.nets6), MappedLow(), MappedEnd())
  }

  ghost predicate ViaCovered(es4: seq<Entry4>, via: Bytes -> bool) {
    forall a :: |a| == 4 && via(a) ==> Scan4(es4, Val(a))
  }

  lemma GoodAnswers4(es4: seq<Entry4>, es6: seq<Entry6>, via: Bytes -> bool, s: CidrSet, ip: Bytes)
    requires BuiltFrom(s, es4, es6) && AllCanonical4(es4) && NothingHidden(s) && ViaCovered(es4, via)
    requires To4(ip).Some?
    ensures AnswersVia(es4, es6, via, s, ip)
  {
    ValBound(To4(ip).value);
    Search4ExactlyWhen(es4, s.nets4);
  }

  lemma GoodAnswers6(es4: seq<Entry4>, es6: seq<Entry6>, via: Bytes -> bool, s: CidrSet, ip: Bytes)
    requires BuiltFrom(s, es4, es6) && AllCanonical6(es6) && NothingHidden(s) && To4(ip).None?
    ensures AnswersVia(es4, es6, via, s, ip)
  {
    if |ip| == 16 {
      BlocksAre6(es6, s.nets6);
      AsBlocks6(es6, s.nets6, ip);
      MappedIsRange(ip);
      SearchableOutsideSuffices(Blocks6(s.nets6), MappedLow(), MappedEnd(), Val(ip));
    }
  }

  // The first way to fail: an IPv4 address that only a listed IPv6 network contains.
  lemma UncoveredFails(es4: seq<Entry4>, es6: seq<Entry6>, via: Bytes -> bool, s: CidrSet, a: Bytes)
    requires BuiltFrom(s, es4, es6) && |a| == 4 && via(a) && !Scan4(es4, Val(a))
    ensures !AnswersVia(es4, es6, via, s, a)
  {
    ScanIgnoresOrder4(es4, s.nets4, Val(a));
  }

  // The second: an IPv4 network that hides the rest of another.
  lemma HiddenFails4(es4: seq<Entry4>, es6: seq<Entry6>, via: Bytes -> bool, s: CidrSet) returns (ip: Bytes)
    requires BuiltFrom(s, es4, es6) && AllCanonical4(es4) && !Searchable(Blocks4(s.nets4)) && ViaCovered(es4, via)
    ensures !AnswersVia(es4, es6, via, s, ip)
  {
    Search4ExactlyWhen(es4, s.nets4);
    var a: nat :| a < Pow2(32) && (Found4(s.nets4, a) <==> !Scan4(es4, a));
    ip := OfVal(a, 4);
    assert To4(ip) == Some(ip);
  }

  // The third: an IPv6 network that hides the rest of another outside the IPv4 range.
  lemma HiddenAddress6(es: seq<Entry6>, r: seq<Entry6>) returns (ip: Bytes)
    requires multiset(r) == multiset(es) && AllCanonical6(es) && InOrder(Blocks6(r))
    requires !SearchableOutside(Blocks6(r), MappedLow(), MappedEnd())
    ensures |ip| == 16 && To4(ip).None? && Scan6(es, ip) && !Found6(r, ip)
  {
    BlocksAre6(es, r);
    var bs := Blocks6(r);
    var j: nat, k: nat :| j < k < |bs| && HidesOutside(bs, j, k, MappedLow(), MappedEnd());
    var a := HiddenOutside(bs, j, k, MappedLow(), MappedEnd());
    ip := OfVal(a, 16);
    MappedIsRange(ip);
    AsBlocks6(es, r, ip);
  }

  lemma AnswersViaExactlyWhen(es4: seq<Entry4>, es6: seq<Entry6>, via: Bytes -> bool, s: CidrSet)
    requires BuiltFrom(s, es4, es6) && AllCanonical4(es4) && AllCanonical6(es6)
    ensures (forall ip :: AnswersVia(es4, es6, via, s, ip)) <==> NothingHidden(s) && ViaCovered(es4, via)
  {
    if NothingHidden(s) && ViaCovered(es4, via) {
      forall ip
        ensures AnswersVia(es4, es6, via, s, ip)
      {
        if To4(ip).Some? {
          GoodAnswers4(es4, es6, via, s, ip);
        } else {
          GoodAnswers6(es4, es6, via, s, ip);
        }
      }
    } else if !ViaCovered(es4, via) {
      var a :| |a| == 4 && via(a) && !Scan4(es4, Val(a));
      UncoveredFails(es4, es6, via, s, a);
    } else if !Searchable(Blocks4(s.nets4)) {
      var ip := HiddenFails4(es4, es6, via, s);
    } else {
      var ip := HiddenAddress6(es6, s.nets6);
      assert !AnswersVia(es4, es6, via, s, ip);
    }
  }

  // ---- The wider reading ----

  ghost predicate AnswersRight(es4: seq<Entry4>, es6: seq<Entry6>, s: CidrSet, ip: Bytes) {
    Answer(s, ip) <==> Covered(es4, es6, ip)
  }

  lemma CoveredIsVia(es4: seq<Entry4>, es6: seq<Entry6>, ip: Bytes)
    ensures Covered(es4, es6, ip) <==> CoveredVia(es4, es6, a => Scan6(es6, V4_IN_V6 + a), ip)
  {
    if |ip| == 16 && To4(ip).Some? {
      assert ip == ip[..12] + ip[12..];
    }
  }

  // The set answers for every address exactly as a scan over all parsed networks, if and only if
  // neither list hides an address that is looked up in it, and every IPv4 address whose
  // sixteen-byte form a listed IPv6 network contains is in a listed IPv4 network as well.
  lemma AnswersExactlyWhen(es4: seq<Entry4>, es6: seq<Entry6>, s: CidrSet)
    requires BuiltFrom(s, es4, es6) && AllCanonical4(es4) && AllCanonical6(es6)
    ensures (forall ip :: AnswersRight(es4, es6, s, ip)) <==> NothingHidden(s) && MappedCovered(es4, es6)
  {
    var via := (a: Bytes) => Scan6(es6, V4_IN_V6 + a);
    forall ip
      ensures AnswersRight(es4, es6, s, ip) <==> AnswersVia(es4, es6, via, s, ip)
    {
      CoveredIsVia(es4, es6, ip);
    }
    AnswersViaExactlyWhen(es4, es6, via, s);
  }

  // ---- The narrower reading ----

  ghost predicate AnswersContained(es4: seq<Entry4>, es6: seq<Entry6>, s: CidrSet, ip: Bytes) {
    Answer(s, ip) <==> Contained(es4, es6, ip)
  }

  // Every address of a listed network of IPv4 addresses in sixteen-byte form lies in a listed
  // IPv4 network.
  ghost predicate MappedNetsCovered(es4: seq<Entry4>, es6: seq<Entry6>) {
    forall a :: |a| == 4 && SomeNet6(es6, a) ==> Scan4(es4, Val(a))
  }

  lemma OddIsNoMultiple(start: nat, n: nat, p: nat, m: nat)
    requires n % 2 == 1 && p > 0 && n * p <= start < n * p + p && m > 0
    ensures m * (2 * p) > 0 && start % (m * (2 * p)) != 0
  {
    var half := n / 2;
    assert n * p == (2 * half + 1) * p == half * (2 * p) + p;
    ModUnique(start, 2 * p, half, start - half * (2 * p));
    assert m * (2 * p) > 0;
    if start % (m * (2 * p)) == 0 {
      MultipleOfFactor(start, m, 2 * p);
    }
  }

  lemma ShortBlock(start: nat, k: nat)
    requires MappedLow() <= start < MappedEnd() && start % Pow2(k) == 0
    ensures k <= 32
  {
    if k > 32 {
      PowAdd(k - 33, 33);
      MappedIsOdd();
      OddIsNoMultiple(start, Val(V4_IN_V6), Pow2(32), Pow2(k - 33));
    }
  }

  lemma MappedIsOdd()
    ensures Val(V4_IN_V6) % 2 == 1
  {
    assert V4_IN_V6[|V4_IN_V6| - 1] == 255;
  }

  lemma MultipleOfFactor(a: nat, m: nat, n: nat)
    requires m > 0 && n > 0 && a % (m * n) == 0
    ensures a % n == 0
  {
    var q := a / (m * n);
    assert a == q * (m * n) == (q * m) * n;
    ModUnique(a, n, q * m, 0);
  }

  // A network that starts at an IPv4 address in sixteen-byte form holds only such addresses.
  lemma MappedNetStays(e: Entry6, ip: Bytes)
    requires Canonical6(e) && To4(e.start).Some? && |ip| == 16 && Hit6(e, ip)
    ensures To4(ip).Some?
  {
    var start := Val(e.start);
    var b := BlockOf(start, Val(e.mask), 128);
    var k := PrefixSize(start, Val(e.mask), 128);
    Aligned(b);
    MappedIsRange(e.start);
    ShortBlock(start, k);
    Hit6IsIn(e, ip);
    InIsInterval(b, Val(ip));
    PowAdd(32 - k, k);
    MappedEnds(start, k);
    MappedIsRange(ip);
  }

  lemma MappedEnds(start: nat, k: nat)
    requires k <= 32 && MappedLow() <= start < MappedEnd() && start % Pow2(k) == 0
    ensures start + Pow2(k) <= MappedEnd()
  {
    PowAdd(32 - k, k);
    MultipleEnds(start, Pow2(k), Pow2(32 - k), Val(V4_IN_V6), Pow2(32));
  }

  lemma MultipleEnds(start: nat, p: nat, q: nat, n: nat, total: nat)
    requires p >= 1 && start % p == 0 && total == q * p && start < n * total + total
    ensures start + p <= n * total + total
  {
    assert n * total + total == (n + 1) * (q * p) == ((n + 1) * q) * p;
    AlignedEnds(start, p, (n + 1) * q);
  }

  lemma ContainedIsVia(es4: seq<Entry4>, es6: seq<Entry6>, ip: Bytes)
    requires AllCanonical6(es6)
    ensures Contained(es4, es6, ip) <==> CoveredVia(es4, es6, a => SomeNet6(es6, a), ip)
  {
    if To4(ip).Some? {
      assert To4(To4(ip).value) == To4(ip);
      forall i | 0 <= i < |es6|
        ensures InNet6(es6[i], ip) <==> InNet6(es6[i], To4(ip).value)
      {
      }
    } else {
      forall i | 0 <= i < |es6|
        ensures InNet6(es6[i], ip) <==> |ip| == 16 && Hit6(es6[i], ip)
      {
        if To4(es6[i].start).Some? && |ip| == 16 && Hit6(es6[i], ip) {
          MappedNetStays(es6[i], ip);
        }
      }
    }
  }

  // In terms of net.IPNet.Contains: the set answers as it does for some parsed network, if and
  // only if neither list hides an address that is looked up in it, and every address of a listed
  // prefix of ::ffff:0:0/96 is in a listed IPv4 network as well.
  lemma ContainsExactlyWhen(es4: seq<Entry4>, es6: seq<Entry6>, s: CidrSet)
    requires BuiltFrom(s, es4, es6) && AllCanonical4(es4) && AllCanonical6(es6)
    ensures (forall ip :: AnswersContained(es4, es6, s, ip)) <==> NothingHidden(s) && MappedNetsCovered(es4, es6)
  {
    var via := (a: Bytes) => SomeNet6(es6, a);
    forall ip
      ensures AnswersContained(es4, es6, s, ip) <==> AnswersVia(es4, es6, via, s, ip)
    {
      ContainedIsVia(es4, es6, ip);
    }
    AnswersViaExactlyWhen(es4, es6, via, s);
  }

  // A positive answer is justified in this reading too.
  lemma AnswerIsContained(es4: seq<Entry4>, es6: seq<Entry6>, s: CidrSet, ip: Bytes)
    requires BuiltFrom(s, es4, es6) && AllCanonical6(es6) && Answer(s, ip)
    ensures Contained(es4, es6, ip)
  {
    AnswerIsJustified(es4, es6, s, ip);
    if To4(ip).Some? {
      ScanIgnoresOrder4(es4, s.nets4, Val(To4(ip).value));
    } else {
      ContainedIsVia(es4, es6, ip);
    }
  }

  // For pairwise disjoint prefixes in any input order, as the documentation asks for, only the
  // last condition remains.
  lemma SearchIsScan(es4: seq<Entry4>, es6: seq<Entry6>, s: CidrSet)
    requires BuiltFrom(s, es4, es6) && Disjoint4(es4) && Disjoint6(es6)
    requires AllCanonical4(es4) && AllCanonical6(es6)
    ensures (forall ip :: AnswersRight(es4, es6, s, ip)) <==> MappedCovered(es4, es6)
    ensures (forall ip :: AnswersContained(es4, es6, s, ip)) <==> MappedNetsCovered(es4, es6)
  {
    DisjointIsSearchable4(es4, s.nets4);
    DisjointIsSearchable6(es6, s.nets6);
    var bs := Blocks6(s.nets6);
    forall j: nat, k: nat | j < k < |bs|
      ensures !HidesOutside(bs, j, k, MappedLow(), MappedEnd())
    {
      assert !Hides(bs, j, k);
    }
    AnswersExactlyWhen(es4, es6, s);
    ContainsExactlyWhen(es4, es6, s);
  }
}
