// cidr.go from the strings to the answer: the set built from a list of prefixes, against
// net.IPNet.Contains of what each string parses to.
module CidrText {
  import opened Common
  import opened Wire
  import opened Numbers
  import opened Sorting
  import opened Cidr

  // ---- What the strings say ----

  // A four-byte or a sixteen-byte network: a prefix mask and an address with no bits outside it.
  ghost predicate Proper(n: Net) {
    || (|n.ip| == |n.mask| == 4 && Canonical(Val(n.ip), Val(n.mask), 32))
    || (|n.ip| == |n.mask| == 16 && Canonical(Val(n.ip), Val(n.mask), 128))
  }

  // net.ParseCIDR yields only such networks.
  ghost predicate Parses(parse: string -> Option<Net>, cidrs: seq<string>) {
    forall i :: 0 <= i < |cidrs| && parse(cidrs[i]).Some? ==> Proper(parse(cidrs[i]).value)
  }

  function Shortest(ip: Bytes): (r: Bytes) {
    if To4(ip).Some? then To4(ip).value else ip
  }

  // net.IPNet.Contains: the mask applied to the bytes of the address gives the network's bytes,
  // address and network in shortest form.
  predicate NetContains(n: Net, ip: Bytes) {
    var mask := if To4(n.ip).Some? && |n.mask| == 16 then n.mask[12..] else n.mask;
    |Shortest(ip)| == |Shortest(n.ip)| == |mask| && AndBytes(Shortest(ip), mask) == Shortest(n.ip)
  }

  // String i parses to a network of len bytes that contains the address.
  ghost predicate Says(parse: string -> Option<Net>, cidrs: seq<string>, i: int, len: nat, ip: Bytes) {
    && 0 <= i < |cidrs| && parse(cidrs[i]).Some?
    && |parse(cidrs[i]).value.ip| == len && NetContains(parse(cidrs[i]).value, ip)
  }

  ghost predicate SomeSays(parse: string -> Option<Net>, cidrs: seq<string>, len: nat, ip: Bytes) {
    exists i :: Says(parse, cidrs, i, len, ip)
  }

  ghost predicate InText(parse: string -> Option<Net>, cidrs: seq<string>, ip: Bytes) {
    exists i :: 0 <= i < |cidrs| && parse(cidrs[i]).Some? && NetContains(parse(cidrs[i]).value, ip)
  }

  lemma TextHasTwoKinds(parse: string -> Option<Net>, cidrs: seq<string>, ip: Bytes)
    requires Parses(parse, cidrs)
    ensures InText(parse, cidrs, ip) <==> SomeSays(parse, cidrs, 4, ip) || SomeSays(parse, cidrs, 16, ip)
  {
    if i :| 0 <= i < |cidrs| && parse(cidrs[i]).Some? && NetContains(parse(cidrs[i]).value, ip) {
      assert Proper(parse(cidrs[i]).value);
      assert Says(parse, cidrs, i, |parse(cidrs[i]).value.ip|, ip);
    }
    if i :| Says(parse, cidrs, i, 4, ip) {
    }
    if i :| Says(parse, cidrs, i, 16, ip) {
    }
  }

  // ---- Where the entries come from ----

  // String i is the source of an IPv4, an IPv6 entry.
  ghost predicate Gives4(parse: string -> Option<Net>, s: string, e: Entry4) {
    var n := parse(s);
    n.Some? && |n.value.ip| == 4 && e == Entry4(Val(n.value.ip), Val(n.value.mask))
  }

  ghost predicate Gives6(parse: string -> Option<Net>, s: string, e: Entry6) {
    var n := parse(s);
    n.Some? && |n.value.ip| == 16 && e == Entry6(n.value.ip, n.value.mask)
  }

  lemma ParsesFront(parse: string -> Option<Net>, cidrs: seq<string>)
    requires Parses(parse, cidrs) && cidrs != []
    ensures Parses(parse, cidrs[..|cidrs| - 1])
    ensures parse(cidrs[|cidrs| - 1]).Some? ==> Proper(parse(cidrs[|cidrs| - 1]).value)
  {
  }

  lemma {:induction false} GivenIsEntry4(parse: string -> Option<Net>, cidrs: seq<string>, i: nat, e: Entry4)
    requires Parses(parse, cidrs) && i < |cidrs| && Gives4(parse, cidrs[i], e)
    ensures e in Entries4(parse, cidrs)
  {
    ParsesFront(parse, cidrs);
    if i < |cidrs| - 1 {
      GivenIsEntry4(parse, cidrs[..|cidrs| - 1], i, e);
    }
  }

  lemma {:induction false} GivenIsEntry6(parse: string -> Option<Net>, cidrs: seq<string>, i: nat, e: Entry6)
    requires Parses(parse, cidrs) && i < |cidrs| && Gives6(parse, cidrs[i], e)
    ensures e in Entries6(parse, cidrs)
  {
    ParsesFront(parse, cidrs);
    if i < |cidrs| - 1 {
      GivenIsEntry6(parse, cidrs[..|cidrs| - 1], i, e);
    }
  }

  // Entry k comes from some string, and a later entry from a later string.
  lemma {:induction false} EntryIsGiven4(parse: string -> Option<Net>, cidrs: seq<string>, k: nat) returns (i: nat)
    requires Parses(parse, cidrs) && k < |Entries4(parse, cidrs)|
    ensures i < |cidrs| && Gives4(parse, cidrs[i], Entries4(parse, cidrs)[k]) && k == |Entries4(parse, cidrs[..i])|
  {
    var front := cidrs[..|cidrs| - 1];
    ParsesFront(parse, cidrs);
    if k < |Entries4(parse, front)| {
      i := EntryIsGiven4(parse, front, k);
      assert front[..i] == cidrs[..i];
    } else {
      i := |cidrs| - 1;
    }
  }

  lemma {:induction false} EntryIsGiven6(parse: string -> Option<Net>, cidrs: seq<string>, k: nat) returns (i: nat)
    requires Parses(parse, cidrs) && k < |Entries6(parse, cidrs)|
    ensures i < |cidrs| && Gives6(parse, cidrs[i], Entries6(parse, cidrs)[k]) && k == |Entries6(parse, cidrs[..i])|
  {
    var front := cidrs[..|cidrs| - 1];
    ParsesFront(parse, cidrs);
    if k < |Entries6(parse, front)| {
      i := EntryIsGiven6(parse, front, k);
      assert front[..i] == cidrs[..i];
    } else {
      i := |cidrs| - 1;
    }
  }

  lemma EntriesAreCanonical(parse: string -> Option<Net>, cidrs: seq<string>)
    requires Parses(parse, cidrs)
    ensures AllCanonical4(Entries4(parse, cidrs)) && AllCanonical6(Entries6(parse, cidrs))
  {
    forall k | 0 <= k < |Entries4(parse, cidrs)|
      ensures Canonical4(Entries4(parse, cidrs)[k])
    {
      var i := EntryIsGiven4(parse, cidrs, k);
      assert Proper(parse(cidrs[i]).value);
    }
    forall k | 0 <= k < |Entries6(parse, cidrs)|
      ensures Canonical6(Entries6(parse, cidrs)[k])
    {
      var i := EntryIsGiven6(parse, cidrs, k);
      assert Proper(parse(cidrs[i]).value);
    }
  }

  // ---- The entries mean what the strings say ----

  lemma ContainsIsHit4(n: Net, ip: Bytes)
    requires |n.ip| == |n.mask| == 4
    ensures NetContains(n, ip) <==>
      To4(ip).Some? && Hit4(Entry4(Val(n.ip), Val(n.mask)), Val(To4(ip).value))
  {
    if To4(ip).Some? {
      var a := To4(ip).value;
      AndBytesVal(a, n.mask);
      LexIsValOrder(AndBytes(a, n.mask), n.ip);
    }
  }

  lemma ContainsIsInNet6(n: Net, ip: Bytes)
    requires |n.ip| == |n.mask| == 16
    ensures NetContains(n, ip) <==> InNet6(Entry6(n.ip, n.mask), ip)
  {
  }

  lemma Says4(parse: string -> Option<Net>, cidrs: seq<string>, ip: Bytes)
    requires Parses(parse, cidrs)
    ensures SomeSays(parse, cidrs, 4, ip) <==>
      To4(ip).Some? && Scan4(Entries4(parse, cidrs), Val(To4(ip).value))
  {
    var es := Entries4(parse, cidrs);
    if i :| Says(parse, cidrs, i, 4, ip) {
      var n := parse(cidrs[i]).value;
      assert Proper(n);
      ContainsIsHit4(n, ip);
      GivenIsEntry4(parse, cidrs, i, Entry4(Val(n.ip), Val(n.mask)));
    }
    if To4(ip).Some? && Scan4(es, Val(To4(ip).value)) {
      var k :| 0 <= k < |es| && Hit4(es[k], Val(To4(ip).value));
      var i := EntryIsGiven4(parse, cidrs, k);
      assert Proper(parse(cidrs[i]).value);
      ContainsIsHit4(parse(cidrs[i]).value, ip);
      assert Says(parse, cidrs, i, 4, ip);
    }
  }

  lemma Says6(parse: string -> Option<Net>, cidrs: seq<string>, ip: Bytes)
    requires Parses(parse, cidrs)
    ensures SomeSays(parse, cidrs, 16, ip) <==> SomeNet6(Entries6(parse, cidrs), ip)
  {
    var es := Entries6(parse, cidrs);
    if i :| Says(parse, cidrs, i, 16, ip) {
      var n := parse(cidrs[i]).value;
      assert Proper(n);
      ContainsIsInNet6(n, ip);
      GivenIsEntry6(parse, cidrs, i, Entry6(n.ip, n.mask));
    }
    if k :| 0 <= k < |es| && InNet6(es[k], ip) {
      var i := EntryIsGiven6(parse, cidrs, k);
      assert Proper(parse(cidrs[i]).value);
      ContainsIsInNet6(parse(cidrs[i]).value, ip);
      assert Says(parse, cidrs, i, 16, ip);
    }
  }

  // An address is contained in the parsed entries exactly when some string's network contains it.
  lemma TextIsContained(parse: string -> Option<Net>, cidrs: seq<string>, ip: Bytes)
    requires Parses(parse, cidrs)
    ensures InText(parse, cidrs, ip) <==> Contained(Entries4(parse, cidrs), Entries6(parse, cidrs), ip)
  {
    TextHasTwoKinds(parse, cidrs, ip);
    Says4(parse, cidrs, ip);
    Says6(parse, cidrs, ip);
  }

  // ---- From the strings to the answer ----

  // The set that ParseCidrs returns.
  ghost predicate Parsed(parse: string -> Option<Net>, cidrs: seq<string>, s: CidrSet) {
    BuiltFrom(s, Entries4(parse, cidrs), Entries6(parse, cidrs))
  }

  ghost predicate AnswersText(parse: string -> Option<Net>, cidrs: seq<string>, s: CidrSet, ip: Bytes) {
    Answer(s, ip) <==> InText(parse, cidrs, ip)
  }

  // Every IPv4 address in the network of a sixteen-byte string is in that of a four-byte string.
  ghost predicate MappedTextCovered(parse: string -> Option<Net>, cidrs: seq<string>) {
    forall a :: |a| == 4 && SomeSays(parse, cidrs, 16, a) ==> SomeSays(parse, cidrs, 4, a)
  }

  lemma TextCoverage(parse: string -> Option<Net>, cidrs: seq<string>)
    requires Parses(parse, cidrs)
    ensures MappedTextCovered(parse, cidrs) <==>
      MappedNetsCovered(Entries4(parse, cidrs), Entries6(parse, cidrs))
  {
    forall a | |a| == 4
      ensures SomeSays(parse, cidrs, 16, a) <==> SomeNet6(Entries6(parse, cidrs), a)
      ensures SomeSays(parse, cidrs, 4, a) <==> Scan4(Entries4(parse, cidrs), Val(a))
    {
      Says4(parse, cidrs, a);
      Says6(parse, cidrs, a);
    }
  }

  // The set built from the strings answers for every address as net.IPNet.Contains does for some
  // string, if and only if neither of its lists hides an address that is looked up in it and the
  // IPv4 addresses of sixteen-byte strings are in four-byte ones too.
  lemma TextExactlyWhen(parse: string -> Option<Net>, cidrs: seq<string>, s: CidrSet)
    requires Parses(parse, cidrs) && Parsed(parse, cidrs, s)
    ensures (forall ip :: AnswersText(parse, cidrs, s, ip)) <==>
      NothingHidden(s) && MappedTextCovered(parse, cidrs)
  {
    var es4, es6 := Entries4(parse, cidrs), Entries6(parse, cidrs);
    EntriesAreCanonical(parse, cidrs);
    forall ip
      ensures AnswersText(parse, cidrs, s, ip) <==> AnswersContained(es4, es6, s, ip)
    {
      TextIsContained(parse, cidrs, ip);
    }
    TextCoverage(parse, cidrs);
    ContainsExactlyWhen(es4, es6, s);
  }

  // Whatever the strings, a positive answer is one that some string's network gives.
  lemma TextJustifies(parse: string -> Option<Net>, cidrs: seq<string>, s: CidrSet, ip: Bytes)
    requires Parses(parse, cidrs) && Parsed(parse, cidrs, s) && Answer(s, ip)
    ensures InText(parse, cidrs, ip)
  {
    EntriesAreCanonical(parse, cidrs);
    AnswerIsContained(Entries4(parse, cidrs), Entries6(parse, cidrs), s, ip);
    TextIsContained(parse, cidrs, ip);
  }

  // ---- Disjoint strings ----

  // The bytes of an address of its own length are in the network of string i.
  ghost predicate Holds(parse: string -> Option<Net>, cidrs: seq<string>, i: int, a: Bytes) {
    && 0 <= i < |cidrs| && parse(cidrs[i]).Some?
    && var n := parse(cidrs[i]).value; |a| == |n.ip| == |n.mask| && AndBytes(a, n.mask) == n.ip
  }

  // No address is in the networks of two strings.
  ghost predicate TextDisjoint(parse: string -> Option<Net>, cidrs: seq<string>) {
    forall i, j, a :: Holds(parse, cidrs, i, a) && Holds(parse, cidrs, j, a) ==> i == j
  }

  lemma DisjointEntries4(parse: string -> Option<Net>, cidrs: seq<string>)
    requires Parses(parse, cidrs) && TextDisjoint(parse, cidrs)
    ensures Disjoint4(Entries4(parse, cidrs))
  {
    var es := Entries4(parse, cidrs);
    forall k, l, v: nat | 0 <= k < |es| && 0 <= l < |es| && v < Pow2(32) && Hit4(es[k], v) && Hit4(es[l], v)
      ensures k == l
    {
      var a := OfVal(v, 4);
      var i := EntryIsGiven4(parse, cidrs, k);
      var j := EntryIsGiven4(parse, cidrs, l);
      HitHolds4(parse, cidrs, i, es[k], a);
      HitHolds4(parse, cidrs, j, es[l], a);
      assert Holds(parse, cidrs, i, a) && Holds(parse, cidrs, j, a);
    }
  }

  lemma HitHolds4(parse: string -> Option<Net>, cidrs: seq<string>, i: nat, e: Entry4, a: Bytes)
    requires Parses(parse, cidrs) && i < |cidrs| && Gives4(parse, cidrs[i], e) && |a| == 4 && Hit4(e, Val(a))
    ensures Holds(parse, cidrs, i, a)
  {
    var n := parse(cidrs[i]).value;
    assert Proper(n);
    AndBytesVal(a, n.mask);
    LexIsValOrder(AndBytes(a, n.mask), n.ip);
  }

  lemma DisjointEntries6(parse: string -> Option<Net>, cidrs: seq<string>)
    requires Parses(parse, cidrs) && TextDisjoint(parse, cidrs)
    ensures Disjoint6(Entries6(parse, cidrs))
  {
    var es := Entries6(parse, cidrs);
    forall k, l, a | 0 <= k < |es| && 0 <= l < |es| && |a| == 16 && Hit6(es[k], a) && Hit6(es[l], a)
      ensures k == l
    {
      var i := EntryIsGiven6(parse, cidrs, k);
      var j := EntryIsGiven6(parse, cidrs, l);
      assert Holds(parse, cidrs, i, a) && Holds(parse, cidrs, j, a);
    }
  }

  // On strings whose networks are pairwise disjoint, as the documentation asks for, in any order,
  // only the last condition remains.
  lemma DisjointTextIsScan(parse: string -> Option<Net>, cidrs: seq<string>, s: CidrSet)
    requires Parses(parse, cidrs) && Parsed(parse, cidrs, s) && TextDisjoint(parse, cidrs)
    ensures (forall ip :: AnswersText(parse, cidrs, s, ip)) <==> MappedTextCovered(parse, cidrs)
  {
    var es4, es6 := Entries4(parse, cidrs), Entries6(parse, cidrs);
    EntriesAreCanonical(parse, cidrs);
    DisjointEntries4(parse, cidrs);
    DisjointEntries6(parse, cidrs);
    forall ip
      ensures AnswersText(parse, cidrs, s, ip) <==> AnswersContained(es4, es6, s, ip)
    {
      TextIsContained(parse, cidrs, ip);
    }
    TextCoverage(parse, cidrs);
    SearchIsScan(es4, es6, s);
  }
}
