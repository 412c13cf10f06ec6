// dht/dht.go: k-buckets and the routing table.
module RoutingTable {
  import opened Common
  import opened Numbers
  import opened NodeId
  import opened Sorting

  const K := 8
  const MAX_MISSED_PINGS := 4

  datatype Contact = Contact(id: Id, addr: string, lastSeen: int, missed: nat, suspect: bool)

  type Bucket = seq<Contact>

  // The first position of the id; the length when absent.
  function Find(b: Bucket, id: Id): (k: nat)
    ensures k <= |b| && (k < |b| ==> b[k].id == id)
    ensures forall i :: 0 <= i < k ==> b[i].id != id
  {
    if b == [] || b[0].id == id then 0 else 1 + Find(b[1..], id)
  }

  function Without(b: Bucket, k: nat): (r: Bucket)
    requires k < |b|
  {
    b[..k] + b[k + 1..]
  }

  function BucketAdd(b: Bucket, c: Contact): (r: Bucket) {
    var k := Find(b, c.id);
    if k < |b| then b[k := c] else (if |b| >= K then b[1..] else b) + [c]
  }

  function BucketRemove(b: Bucket, id: Id): (r: Bucket) {
    var k := Find(b, id);
    if k < |b| then Without(b, k) else b
  }

  function BucketMiss(b: Bucket, id: Id): (r: Bucket) {
    var k := Find(b, id);
    if k == |b| then b
    else if b[k].missed + 1 >= MAX_MISSED_PINGS then Without(b, k)
    else b[k := b[k].(missed := b[k].missed + 1, suspect := true)]
  }

  function BucketReset(b: Bucket, id: Id): (r: Bucket) {
    var k := Find(b, id);
    if k == |b| then b else b[k := b[k].(missed := 0, suspect := false)]
  }

  // ---- What every operation keeps ----

  ghost predicate ContactOk(self: Id, i: nat, c: Contact) {
    && c.id != self && BucketIndex(Distance(self, c.id)) == i
    && c.missed < MAX_MISSED_PINGS && (c.suspect <==> c.missed > 0)
  }

  ghost predicate BucketOk(self: Id, i: nat, b: Bucket) {
    && |b| <= K
    && (forall k :: 0 <= k < |b| ==> ContactOk(self, i, b[k]))
    && (forall k, l :: 0 <= k < l < |b| ==> b[k].id != b[l].id)
  }

  datatype Op = Add(c: Contact) | Remove(id: Id) | MarkMissed(id: Id) | ResetMissed(id: Id)

  function OpId(op: Op): (id: Id) {
    if op.Add? then op.c.id else op.id
  }

  function BucketDo(b: Bucket, op: Op): (r: Bucket) {
    match op
    case Add(c) => BucketAdd(b, c)
    case Remove(id) => BucketRemove(b, id)
    case MarkMissed(id) => BucketMiss(b, id)
    case ResetMissed(id) => BucketReset(b, id)
  }

  lemma WithoutOk(self: Id, i: nat, b: Bucket, k: nat)
    requires BucketOk(self, i, b) && k < |b|
    ensures BucketOk(self, i, Without(b, k))
  {
    var r := Without(b, k);
    forall l, m | 0 <= l < m < |r|
      ensures r[l].id != r[m].id
    {
      var l', m' := if l < k then l else l + 1, if m < k then m else m + 1;
      assert r[l] == b[l'] && r[m] == b[m'];
    }
  }

  lemma AddOk(self: Id, i: nat, b: Bucket, c: Contact)
    requires BucketOk(self, i, b) && ContactOk(self, i, c)
    ensures BucketOk(self, i, BucketAdd(b, c))
  {
  }

  lemma RemoveOk(self: Id, i: nat, b: Bucket, id: Id)
    requires BucketOk(self, i, b)
    ensures BucketOk(self, i, BucketRemove(b, id))
  {
    if Find(b, id) < |b| {
      WithoutOk(self, i, b, Find(b, id));
    }
  }

  lemma ReplaceOk(self: Id, i: nat, b: Bucket, k: nat, c: Contact)
    requires BucketOk(self, i, b) && k < |b| && c.id == b[k].id && ContactOk(self, i, c)
    ensures BucketOk(self, i, b[k := c])
  {
  }

  lemma MissOk(self: Id, i: nat, b: Bucket, id: Id)
    requires BucketOk(self, i, b)
    ensures BucketOk(self, i, BucketMiss(b, id))
  {
    var k := Find(b, id);
    if k < |b| {
      assert ContactOk(self, i, b[k]);
      if b[k].missed + 1 >= MAX_MISSED_PINGS {
        WithoutOk(self, i, b, k);
      } else {
        ReplaceOk(self, i, b, k, b[k].(missed := b[k].missed + 1, suspect := true));
      }
    }
  }

  lemma ResetOk(self: Id, i: nat, b: Bucket, id: Id)
    requires BucketOk(self, i, b)
    ensures BucketOk(self, i, BucketReset(b, id))
  {
    var k := Find(b, id);
    if k < |b| {
      assert ContactOk(self, i, b[k]);
      ReplaceOk(self, i, b, k, b[k].(missed := 0, suspect := false));
    }
  }

  lemma BucketKeeps(self: Id, i: nat, b: Bucket, op: Op)
    requires BucketOk(self, i, b) && (op.Add? ==> ContactOk(self, i, op.c))
    ensures BucketOk(self, i, BucketDo(b, op))
  {
    match op
    case Add(c) => AddOk(self, i, b, c);
    case Remove(id) => RemoveOk(self, i, b, id);
    case MarkMissed(id) => MissOk(self, i, b, id);
    case ResetMissed(id) => ResetOk(self, i, b, id);
  }

  // ---- The table ----

  type Buckets = bs: seq<Bucket> | |bs| == ID_BITS witness seq(ID_BITS, _ => [])

  function Slot(self: Id, id: Id): (i: nat)
    ensures i < ID_BITS
  {
    BucketIndex(Distance(self, id))
  }

  // A contact with our own id is never added; every other operation works on one bucket.
  function Did(self: Id, bs: Buckets, op: Op): (r: Buckets) {
    if op.Add? && op.c.id == self then bs
    else
      var i := Slot(self, OpId(op));
      bs[i := BucketDo(bs[i], op)]
  }

  function DidAll(self: Id, ops: seq<Op>): (r: Buckets) {
    if ops == [] then seq(ID_BITS, _ => []) else Did(self, DidAll(self, ops[..|ops| - 1]), ops[|ops| - 1])
  }

  // Callers add contacts whose suspect flag agrees with their miss count (fresh ones have 0).
  ghost predicate FreshAdds(ops: seq<Op>) {
    forall k :: 0 <= k < |ops| && ops[k].Add? ==>
      ops[k].c.missed < MAX_MISSED_PINGS && (ops[k].c.suspect <==> ops[k].c.missed > 0)
  }

  ghost predicate TableOk(self: Id, bs: Buckets) {
    forall i :: 0 <= i < ID_BITS ==> BucketOk(self, i, bs[i])
  }

  lemma {:induction false} TableAlwaysOk(self: Id, ops: seq<Op>)
    requires FreshAdds(ops)
    ensures TableOk(self, DidAll(self, ops))
  {
    if ops != [] {
      var op := ops[|ops| - 1];
      TableAlwaysOk(self, ops[..|ops| - 1]);
      if !(op.Add? && op.c.id == self) {
        var i := Slot(self, OpId(op));
        BucketKeeps(self, i, DidAll(self, ops[..|ops| - 1])[i], op);
      }
    }
  }

  ghost predicate InRange(self: Id, i: nat, b: Bucket, k: nat)
    requires i < ID_BITS && k < |b|
  {
    var c := b[k];
    && c.id != self && Pow2(255 - i) <= Val(Distance(self, c.id)) < Pow2(256 - i)
    && c.missed < 4 && (c.suspect <==> c.missed > 0)
    && (forall l :: 0 <= l < |b| && l != k ==> b[l].id != c.id)
  }

  lemma BucketOkInRange(self: Id, i: nat, b: Bucket, k: nat)
    requires i < ID_BITS && BucketOk(self, i, b) && k < |b|
    ensures InRange(self, i, b, k)
  {
    assert ContactOk(self, i, b[k]);
    BucketIsDistanceRange(self, b[k].id);
  }

  // After any operations, bucket i holds at most eight contacts with distinct ids, none of
  // them ourselves, each at an XOR distance in [2^(255-i), 2^(256-i)), with fewer than four
  // misses and suspect exactly when it has missed a ping.
  lemma BucketsHoldTheirRange(self: Id, ops: seq<Op>, i: nat)
    requires FreshAdds(ops) && i < ID_BITS
    ensures |DidAll(self, ops)[i]| <= 8
    ensures forall k :: 0 <= k < |DidAll(self, ops)[i]| ==> InRange(self, i, DidAll(self, ops)[i], k)
  {
    TableAlwaysOk(self, ops);
    var b := DidAll(self, ops)[i];
    assert BucketOk(self, i, b);
    forall k | 0 <= k < |b|
      ensures InRange(self, i, b, k)
    {
      BucketOkInRange(self, i, b, k);
    }
  }

  // ---- What each operation achieves ----

  // An added contact is in its bucket, and the others stay, save one with the same id or the
  // oldest of a full bucket.
  lemma AddedIsPresent(self: Id, bs: Buckets, c: Contact, i: nat, k: nat)
    requires c.id != self && i < ID_BITS
    ensures c in Did(self, bs, Add(c))[Slot(self, c.id)]
    ensures k < |bs[i]| && bs[i][k].id != c.id && (k > 0 || |bs[i]| < K) ==> bs[i][k] in Did(self, bs, Add(c))[i]
  {
    var j := Slot(self, c.id);
    AddKeepsOthers(bs[j], c, if i == j then k else 0);
  }

  lemma AddKeepsOthers(b: Bucket, c: Contact, k: nat)
    ensures c in BucketAdd(b, c)
    ensures k < |b| && b[k].id != c.id && (k > 0 || |b| < K) ==> b[k] in BucketAdd(b, c)
  {
    var r, f := BucketAdd(b, c), Find(b, c.id);
    if f < |b| {
      assert r[f] == c;
      assert k < |b| && k != f ==> r[k] == b[k];
    } else {
      assert r[|r| - 1] == c;
      if k < |b| && (k > 0 || |b| < K) {
        assert r[if |b| >= K then k - 1 else k] == b[k];
      }
    }
  }

  // Removing an id takes its contact out of its bucket and leaves all others in their order; no
  // contact of that id is left.
  lemma RemovedIsGone(self: Id, bs: Buckets, id: Id, i: nat)
    requires TableOk(self, bs) && i < ID_BITS
    ensures var was, now := bs[i], Did(self, bs, Remove(id))[i];
      && (forall k :: 0 <= k < |now| ==> now[k].id != id)
      && (now == was || exists k :: 0 <= k < |was| && was[k].id == id && now == was[..k] + was[k + 1..])
  {
    assert BucketOk(self, i, bs[i]);
    if i == Slot(self, id) {
      var k := Find(bs[i], id);
      if k < |bs[i]| {
        AbsentWithout(self, i, bs[i], k);
      }
    } else {
      OnlyInItsSlot(self, i, bs[i], id);
    }
  }

  lemma OnlyInItsSlot(self: Id, i: nat, b: Bucket, id: Id)
    requires BucketOk(self, i, b) && i != Slot(self, id)
    ensures forall k :: 0 <= k < |b| ==> b[k].id != id
  {
    forall k | 0 <= k < |b|
      ensures b[k].id != id
    {
      assert ContactOk(self, i, b[k]);
    }
  }

  // A reset gives the contact of that id a clean record and changes nothing else.
  lemma ResetClears(self: Id, bs: Buckets, id: Id, i: nat, k: nat)
    requires TableOk(self, bs) && i < ID_BITS && k < |bs[i]|
    ensures var was, now := bs[i], Did(self, bs, ResetMissed(id))[i];
      && |now| == |was|
      && now[k] == if was[k].id == id then Contact(id, was[k].addr, was[k].lastSeen, 0, false) else was[k]
  {
    assert BucketOk(self, i, bs[i]);
    if i != Slot(self, id) {
      OnlyInItsSlot(self, i, bs[i], id);
    } else if bs[i][k].id == id {
      assert Find(bs[i], id) == k;
    }
  }

  // A miss short of the fourth marks the contact suspect and changes nothing else about it.
  lemma MissMarksSuspect(self: Id, bs: Buckets, id: Id, i: nat, k: nat)
    requires TableOk(self, bs) && i < ID_BITS && k < |bs[i]|
    ensures var was, now := bs[i], Did(self, bs, MarkMissed(id))[i];
      if was[k].id != id then was[k] in now
      else if was[k].missed < 3
      then |now| == |was| && now[k] == Contact(id, was[k].addr, was[k].lastSeen, was[k].missed + 1, true)
      else now == was[..k] + was[k + 1..]
  {
    var was := bs[i];
    assert BucketOk(self, i, was);
    if was[k].id == id {
      if i != Slot(self, id) {
        OnlyInItsSlot(self, i, was, id);
      }
      assert Find(was, id) == k;
    } else if i == Slot(self, id) {
      MissKeepsOthers(was, id, k);
    }
  }

  lemma MissKeepsOthers(b: Bucket, id: Id, k: nat)
    requires k < |b| && b[k].id != id
    ensures b[k] in BucketMiss(b, id)
  {
    var f, r := Find(b, id), BucketMiss(b, id);
    if f < |b| && b[f].missed + 1 >= MAX_MISSED_PINGS {
      assert r[if k < f then k else k - 1] == b[k];
    } else {
      assert r[k] == b[k];
    }
  }

  ghost predicate OneBucket(self: Id, cs: seq<Contact>, i: nat) {
    && (forall k :: 0 <= k < |cs| ==> cs[k].id != self && Slot(self, cs[k].id) == i)
    && (forall k, l :: 0 <= k < l < |cs| ==> cs[k].id != cs[l].id)
  }

  function Adds(cs: seq<Contact>): (ops: seq<Op>)
    ensures |ops| == |cs|
  {
    seq(|cs|, k requires 0 <= k < |cs| => Add(cs[k]))
  }

  function LastEight(cs: seq<Contact>): (r: Bucket) {
    cs[|cs| - Min(8, |cs|)..]
  }

  lemma OneBucketFront(self: Id, cs: seq<Contact>, i: nat)
    requires OneBucket(self, cs, i) && cs != []
    ensures var front, c := cs[..|cs| - 1], cs[|cs| - 1];
      && OneBucket(self, front, i) && c.id != self && Slot(self, c.id) == i
      && (forall k :: 0 <= k < |front| ==> front[k].id != c.id)
  {
  }

  // Of new contacts added to one bucket, the last eight are kept, in the order they came.
  lemma {:induction false} BucketKeepsLastEight(self: Id, cs: seq<Contact>, i: nat)
    requires i < ID_BITS && OneBucket(self, cs, i)
    ensures DidAll(self, Adds(cs))[i] == LastEight(cs)
  {
    if cs == [] {
      assert Adds(cs) == [];
    } else {
      var front, c := cs[..|cs| - 1], cs[|cs| - 1];
      assert cs == front + [c];
      OneBucketFront(self, cs, i);
      BucketKeepsLastEight(self, front, i);
      AddsOneMore(self, front, c, i);
      AppendsNew(front, c);
    }
  }

  lemma AddsOneMore(self: Id, front: seq<Contact>, c: Contact, i: nat)
    requires c.id != self && Slot(self, c.id) == i
    ensures DidAll(self, Adds(front + [c]))[i] == BucketAdd(DidAll(self, Adds(front))[i], c)
  {
    var ops := Adds(front + [c]);
    assert ops[..|front|] == Adds(front) && ops[|front|] == Add(c);
  }

  lemma AppendsNew(front: seq<Contact>, c: Contact)
    requires forall k :: 0 <= k < |front| ==> front[k].id != c.id
    ensures BucketAdd(LastEight(front), c) == LastEight(front + [c])
  {
    var b := LastEight(front);
    assert Find(b, c.id) == |b| by {
      forall k | 0 <= k < |b|
        ensures b[k].id != c.id
      {
        assert b[k] == front[|front| - Min(8, |front|) + k];
      }
    }
  }

  // A contact that is added again takes the place of the old one.
  lemma AddedAgainReplaces(self: Id, bs: Buckets, c: Contact, k: nat)
    requires TableOk(self, bs) && c.id != self
    requires k < |bs[Slot(self, c.id)]| && bs[Slot(self, c.id)][k].id == c.id
    ensures Did(self, bs, Add(c)) == bs[Slot(self, c.id) := bs[Slot(self, c.id)][k := c]]
  {
    var i := Slot(self, c.id);
    assert BucketOk(self, i, bs[i]);
    assert Find(bs[i], c.id) == k;
  }

  // n missed pings in a row.
  function Misses(id: Id, n: nat): (ops: seq<Op>) {
    seq(n, _ => MarkMissed(id))
  }

  function DidFrom(self: Id, bs: Buckets, ops: seq<Op>): (r: Buckets) {
    if ops == [] then bs else Did(self, DidFrom(self, bs, ops[..|ops| - 1]), ops[|ops| - 1])
  }

  function MissedInBucket(b: Bucket, id: Id, n: nat): (r: Bucket) {
    if n == 0 then b else BucketMiss(MissedInBucket(b, id, n - 1), id)
  }

  lemma MissIsInBucket(self: Id, bs: Buckets, id: Id, i: nat)
    requires i == Slot(self, id)
    ensures Did(self, bs, MarkMissed(id))[i] == BucketMiss(bs[i], id)
  {
  }

  lemma DidOneMore(self: Id, bs: Buckets, id: Id, n: nat)
    ensures DidFrom(self, bs, Misses(id, n + 1)) == Did(self, DidFrom(self, bs, Misses(id, n)), MarkMissed(id))
  {
    assert Misses(id, n + 1)[..n] == Misses(id, n);
  }

  lemma InBucketOneMore(b: Bucket, id: Id, n: nat)
    ensures MissedInBucket(b, id, n + 1) == BucketMiss(MissedInBucket(b, id, n), id)
  {
  }

  ghost predicate MissesInBucket(self: Id, bs: Buckets, id: Id, i: nat, n: nat) {
    i < ID_BITS && DidFrom(self, bs, Misses(id, n))[i] == MissedInBucket(bs[i], id, n)
  }

  lemma MissedStep(self: Id, bs: Buckets, id: Id, i: nat, n: nat)
    requires i == Slot(self, id) && MissesInBucket(self, bs, id, i, n)
    ensures MissesInBucket(self, bs, id, i, n + 1)
  {
    DidOneMore(self, bs, id, n);
    MissIsInBucket(self, DidFrom(self, bs, Misses(id, n)), id, i);
    InBucketOneMore(bs[i], id, n);
  }

  lemma MissedIsInBucket(self: Id, bs: Buckets, id: Id, i: nat, n: nat)
    requires i == Slot(self, id)
    ensures MissesInBucket(self, bs, id, i, n)
  {
    forall k: nat | k < n && MissesInBucket(self, bs, id, i, k)
      ensures MissesInBucket(self, bs, id, i, k + 1)
    {
      MissedStep(self, bs, id, i, k);
    }
    assert MissesInBucket(self, bs, id, i, 0);
    Along((k: nat) => MissesInBucket(self, bs, id, i, k), 0, n);
  }

  // The contact at k after n misses, while it is still kept.
  ghost predicate MissCounted(b: Bucket, k: nat, n: nat, r: Bucket)
    requires k < |b|
  {
    && |r| == |b| && r[k].id == b[k].id && r[k].missed == b[k].missed + n
    && (forall l :: 0 <= l < |b| && l != k ==> r[l] == b[l])
  }

  ghost predicate Gone(b: Bucket, k: nat, r: Bucket)
    requires k < |b|
  {
    r == Without(b, k) && Find(r, b[k].id) == |r|
  }

  // One more miss: counted, or the fourth, which evicts.
  lemma MissStep(self: Id, i: nat, b: Bucket, k: nat, n: nat, r: Bucket)
    requires BucketOk(self, i, b) && k < |b| && MissCounted(b, k, n, r)
    ensures if b[k].missed + n + 1 < MAX_MISSED_PINGS
      then MissCounted(b, k, n + 1, BucketMiss(r, b[k].id))
      else Gone(b, k, BucketMiss(r, b[k].id))
  {
    assert Find(r, b[k].id) == k;
    if b[k].missed + n + 1 >= MAX_MISSED_PINGS {
      assert Without(r, k) == Without(b, k);
      AbsentWithout(self, i, b, k);
    }
  }

  ghost predicate CountedOrGone(b: Bucket, k: nat, n: nat, r: Bucket)
    requires k < |b|
  {
    if b[k].missed + n < MAX_MISSED_PINGS then MissCounted(b, k, n, r) else Gone(b, k, r)
  }

  lemma {:induction false} BucketMisses(self: Id, i: nat, b: Bucket, k: nat, n: nat)
    requires BucketOk(self, i, b) && k < |b|
    ensures CountedOrGone(b, k, n, MissedInBucket(b, b[k].id, n))
  {
    if n == 0 {
      assert ContactOk(self, i, b[k]);
    } else {
      BucketMisses(self, i, b, k, n - 1);
      if b[k].missed + n - 1 < MAX_MISSED_PINGS {
        MissStep(self, i, b, k, n - 1, MissedInBucket(b, b[k].id, n - 1));
      }
    }
  }

  // A contact that misses pings without a reset in between is kept, with the misses counted,
  // until it has four; then it alone is gone from its bucket, for good.
  lemma FourMissesEvict(self: Id, bs: Buckets, id: Id, k: nat, n: nat)
    requires TableOk(self, bs) && k < |bs[Slot(self, id)]| && bs[Slot(self, id)][k].id == id
    ensures CountedOrGone(bs[Slot(self, id)], k, n, DidFrom(self, bs, Misses(id, n))[Slot(self, id)])
  {
    MissedIsInBucket(self, bs, id, Slot(self, id), n);
    BucketMisses(self, Slot(self, id), bs[Slot(self, id)], k, n);
  }

  lemma AbsentWithout(self: Id, i: nat, b: Bucket, k: nat)
    requires BucketOk(self, i, b) && k < |b|
    ensures Find(Without(b, k), b[k].id) == |Without(b, k)|
  {
    var r := Without(b, k);
    forall l | 0 <= l < |r|
      ensures r[l].id != b[k].id
    {
      assert r[l] == b[if l < k then l else l + 1];
    }
  }

  // ---- Closest ----

  function Available(b: Bucket): (r: seq<Contact>) {
    if b == [] then [] else Available(b[..|b| - 1]) + (if b[|b| - 1].suspect then [] else [b[|b| - 1]])
  }

  // The non-suspect contacts of the first n buckets.
  function AvailableIn(bs: Buckets, n: nat): (r: seq<Contact>)
    requires n <= ID_BITS
  {
    if n == 0 then [] else AvailableIn(bs, n - 1) + Available(bs[n - 1])
  }

  function Nearer(target: Id): (less: (Contact, Contact) -> bool) {
    (a: Contact, b: Contact) => Lead(a.id, target) < Lead(b.id, target)
  }

  lemma NearerIsWeak(target: Id)
    ensures StrictWeak(Nearer(target))
  {
  }

  // The n nearest by the leading 64 bits, in order.
  ghost predicate ClosestOf(all: seq<Contact>, target: Id, n: nat, out: seq<Contact>) {
    exists ranked :: Ranking(all, ranked, Nearer(target)) && out == ranked[..Min(n, |ranked|)]
  }

  lemma {:induction false} AvailableAre(b: Bucket, c: Contact)
    ensures c in Available(b) <==> c in b && !c.suspect
  {
    if b != [] {
      AvailableAre(b[..|b| - 1], c);
      assert b == b[..|b| - 1] + [b[|b| - 1]];
    }
  }

  lemma {:induction false} AvailableInAre(bs: Buckets, n: nat, c: Contact)
    requires n <= ID_BITS
    ensures c in AvailableIn(bs, n) <==> exists i :: 0 <= i < n && c in bs[i] && !c.suspect
  {
    if n > 0 {
      AvailableInAre(bs, n - 1, c);
      AvailableAre(bs[n - 1], c);
    }
  }

  // Closest returns min(n, available) contacts.
  lemma ClosestCount(all: seq<Contact>, target: Id, n: nat, out: seq<Contact>)
    requires ClosestOf(all, target, n, out)
    ensures |out| == Min(n, |all|)
  {
    var ranked: seq<Contact> :| Ranking(all, ranked, Nearer(target)) && out == ranked[..Min(n, |ranked|)];
    assert |multiset(ranked)| == |multiset(all)|;
  }

  // They are contacts of the table, none suspect, and no contact left out is nearer in the
  // leading 64 bits than one of them.
  lemma ClosestAreNearest(bs: Buckets, target: Id, n: nat, out: seq<Contact>, c: Contact, o: Contact)
    requires ClosestOf(AvailableIn(bs, ID_BITS), target, n, out) && o in out
    ensures !o.suspect && exists i :: 0 <= i < ID_BITS && o in bs[i]
    ensures (exists i :: 0 <= i < ID_BITS && c in bs[i]) && !c.suspect && c !in out ==>
      Lead(o.id, target) <= Lead(c.id, target)
  {
    var all := AvailableIn(bs, ID_BITS);
    var ranked: seq<Contact> :| Ranking(all, ranked, Nearer(target)) && out == ranked[..Min(n, |ranked|)];
    SameElements(all, ranked);
    assert o in ranked;
    AvailableInAre(bs, ID_BITS, o);
    AvailableInAre(bs, ID_BITS, c);
    if c in all && c !in out {
      LeftOutIsFarther(ranked, target, Min(n, |ranked|), c, o);
    }
  }

  lemma LeftOutIsFarther(ranked: seq<Contact>, target: Id, cut: nat, c: Contact, o: Contact)
    requires Sorted(ranked, Nearer(target)) && cut <= |ranked|
    requires c in ranked && c !in ranked[..cut] && o in ranked[..cut]
    ensures Lead(o.id, target) <= Lead(c.id, target)
  {
    var i :| 0 <= i < cut && ranked[..cut][i] == o;
    var j :| 0 <= j < |ranked| && ranked[j] == c;
    assert cut <= j;
    assert !Nearer(target)(ranked[j], ranked[i]);
  }

  // Where the leading 64 bits tell the contacts apart, the order is that of the full metric:
  // each returned contact is Closer than the ones after it and than every one left out.
  lemma ClosestFollowsCloser(all: seq<Contact>, target: Id, n: nat, out: seq<Contact>)
    requires ClosestOf(all, target, n, out)
    requires forall i, j :: 0 <= i < j < |all| ==> Lead(all[i].id, target) != Lead(all[j].id, target)
    ensures forall i, j :: 0 <= i < j < |out| ==> Closer(out[i].id, out[j].id, target)
    ensures forall i, c :: 0 <= i < |out| && c in all && c !in out ==> Closer(out[i].id, c.id, target)
  {
    var ranked: seq<Contact> :| Ranking(all, ranked, Nearer(target)) && out == ranked[..Min(n, |ranked|)];
    SameElements(all, ranked);
    forall i, j | 0 <= i < j < |ranked|
      ensures Closer(ranked[i].id, ranked[j].id, target)
    {
      DistinctLeads(all, ranked, target, i, j);
      assert !Nearer(target)(ranked[j], ranked[i]);
      LeadDecides(ranked[i].id, ranked[j].id, target);
    }
    forall i, c | 0 <= i < |out| && c in all && c !in out
      ensures Closer(out[i].id, c.id, target)
    {
      assert c in ranked;
      var j :| 0 <= j < |ranked| && ranked[j] == c;
      assert |out| <= j;
    }
  }

  lemma DistinctLeads(all: seq<Contact>, ranked: seq<Contact>, target: Id, i: nat, j: nat)
    requires multiset(ranked) == multiset(all) && i < j < |ranked|
    requires forall k, l :: 0 <= k < l < |all| ==> Lead(all[k].id, target) != Lead(all[l].id, target)
    ensures Lead(ranked[i].id, target) != Lead(ranked[j].id, target)
  {
    SameElements(all, ranked);
    if ranked[i] == ranked[j] {
      var k, l := TwiceInPermutation(all, ranked, i, j);
    } else {
      assert ranked[i] in all && ranked[j] in all;
      var k :| 0 <= k < |all| && all[k] == ranked[i];
      var l :| 0 <= l < |all| && all[l] == ranked[j];
      assert k < l ==> Lead(all[k].id, target) != Lead(all[l].id, target);
      assert l < k ==> Lead(all[l].id, target) != Lead(all[k].id, target);
    }
  }

  class Table {
    const self: Id
    var buckets: Buckets

    constructor (self: Id)
      ensures this.self == self && buckets == DidAll(self, [])
    {
      this.self := self;
      buckets := seq(ID_BITS, _ => []);
    }

    method IndexOf(b: Bucket, id: Id) returns (k: nat)
      ensures k == Find(b, id)
    {
      for i := 0 to |b|
        invariant Find(b, id) == i + Find(b[i..], id)
      {
        if b[i].id == id {
          return i;
        }
      }
      k := |b|;
    }

    method SlotOf(id: Id) returns (i: nat)
      ensures i == Slot(self, id)
    {
      var d := XorIds(self, id);
      i := FindBucketIndex(d);
    }

    method AddContact(c: Contact)
      modifies `buckets
      ensures buckets == Did(self, old(buckets), Add(c))
    {
      if c.id == self {
        return;
      }
      var i := SlotOf(c.id);
      var b := buckets[i];
      var k := IndexOf(b, c.id);
      if k < |b| {
        b := b[k := c];
      } else {
        if |b| >= K {
          b := b[1..];
        }
        b := b + [c];
      }
      buckets := buckets[i := b];
    }

    method RemoveContact(id: Id)
      modifies `buckets
      ensures buckets == Did(self, old(buckets), Remove(id))
    {
      var i := SlotOf(id);
      var b := buckets[i];
      var k := IndexOf(b, id);
      if k < |b| {
        b := b[..k] + b[k + 1..];
      }
      buckets := buckets[i := b];
    }

    method Miss(id: Id)
      modifies `buckets
      ensures buckets == Did(self, old(buckets), MarkMissed(id))
    {
      var i := SlotOf(id);
      var b := buckets[i];
      var k := IndexOf(b, id);
      if k < |b| {
        var missed := b[k].missed + 1;
        if missed >= MAX_MISSED_PINGS {
          b := b[..k] + b[k + 1..];
        } else {
          b := b[k := b[k].(missed := missed, suspect := true)];
        }
      }
      buckets := buckets[i := b];
    }

    method Reset(id: Id)
      modifies `buckets
      ensures buckets == Did(self, old(buckets), ResetMissed(id))
    {
      var i := SlotOf(id);
      var b := buckets[i];
      var k := IndexOf(b, id);
      if k < |b| {
        b := b[k := b[k].(missed := 0, suspect := false)];
      }
      buckets := buckets[i := b];
    }

    method Collect() returns (all: seq<Contact>)
      ensures all == AvailableIn(buckets, ID_BITS)
    {
      all := [];
      for i := 0 to ID_BITS
        invariant all == AvailableIn(buckets, i)
      {
        var b := buckets[i];
        var some: seq<Contact> := [];
        for k := 0 to |b|
          invariant some == Available(b[..k])
        {
          assert b[..k + 1][..k] == b[..k];
          if !b[k].suspect {
            some := some + [b[k]];
          }
        }
        assert b[..|b|] == b;
        all := all + some;
      }
    }

    method Closest(target: Id, n: nat) returns (out: seq<Contact>)
      ensures ClosestOf(AvailableIn(buckets, ID_BITS), target, n, out)
    {
      var all := Collect();
      NearerIsWeak(target);
      var ranked := SortBy(all, Nearer(target));
      if |ranked| > n {
        out := ranked[..n];
      } else {
        assert ranked[..|ranked|] == ranked;
        out := ranked;
      }
    }
  }
}
