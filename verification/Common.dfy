// Vocabulary shared by every component.
module Common {
  type byte = x: int | 0 <= x < 256
  type Bytes = seq<byte>

  datatype Option<+T> = None | Some(value: T)

  function Min(a: int, b: int): (m: int) {
    if a < b then a else b
  }

  // Concatenation is associative; stated as a lemma so that long concatenations are regrouped
  // one step at a time.
  lemma Regroup<T>(a: seq<T>, b: seq<T>, c: seq<T>)
    ensures a + (b + c) == (a + b) + c
  {
  }

  lemma InJoin<T>(x: T, a: seq<T>, b: seq<T>)
    ensures x in a + b <==> x in a || x in b
  {
  }

  lemma DropFront<T>(a: seq<T>, b: seq<T>)
    ensures (a + b)[..|a|] == a && (a + b)[|a|..] == b
  {
  }

  // Induction along an interval, for predicates that are costly to unfold.
  lemma {:induction false} Along(p: nat -> bool, lo: nat, hi: nat)
    requires lo <= hi && p(lo) && forall i: nat :: lo <= i < hi && p(i) ==> p(i + 1)
    ensures p(hi)
  {
    if lo < hi {
      Along(p, lo, hi - 1);
    }
  }

  // Concatenation of a list of byte strings, in order.
  function Flatten(parts: seq<Bytes>): (all: Bytes) {
    if parts == [] then [] else parts[0] + Flatten(parts[1..])
  }

  lemma {:induction false} FlattenAppend(a: seq<Bytes>, b: seq<Bytes>)
    ensures Flatten(a + b) == Flatten(a) + Flatten(b)
  {
    if a == [] {
      assert a + b == b;
    } else {
      FlattenAppend(a[1..], b);
      assert (a + b)[1..] == a[1..] + b && (a + b)[0] == a[0];
      Regroup(a[0], Flatten(a[1..]), Flatten(b));
    }
  }

  lemma FlattenSnoc(a: seq<Bytes>, x: Bytes)
    ensures Flatten(a + [x]) == Flatten(a) + x
  {
    FlattenAppend(a, [x]);
    assert Flatten([x]) == x + Flatten([]);
  }

  // ---- Runs of a transition relation ----

  ghost predicate Path<S(!new), T(!new)>(rel: (S, T, S) -> bool, b: seq<S>, steps: seq<T>) {
    |b| == |steps| + 1 && forall i: nat :: i < |steps| ==> rel(b[i], steps[i], b[i + 1])
  }

  ghost predicate PathTo<S(!new), T(!new)>(rel: (S, T, S) -> bool, b: seq<S>, steps: seq<T>, s: S, t: S) {
    Path(rel, b, steps) && b[0] == s && b[|b| - 1] == t
  }

  // t can be reached from s.
  ghost predicate Reach<S(!new), T(!new)>(rel: (S, T, S) -> bool, s: S, t: S) {
    exists b, steps :: PathTo(rel, b, steps, s, t)
  }

  lemma ReachStep<S(!new), T(!new)>(rel: (S, T, S) -> bool, s: S, step: T, t: S)
    requires rel(s, step, t)
    ensures Reach(rel, s, t)
  {
    assert PathTo(rel, [s, t], [step], s, t);
  }

  lemma ReachOn<S(!new), T(!new)>(rel: (S, T, S) -> bool, s: S, t: S, u: S)
    requires Reach(rel, s, t) && Reach(rel, t, u)
    ensures Reach(rel, s, u)
  {
    var b, one :| PathTo(rel, b, one, s, t);
    var c, two :| PathTo(rel, c, two, t, u);
    var all, steps := b[..|b| - 1] + c, one + two;
    forall i: nat | i < |steps|
      ensures rel(all[i], steps[i], all[i + 1])
    {
      if i < |one| {
        assert rel(b[i], one[i], b[i + 1]);
      } else {
        assert rel(c[i - |one|], two[i - |one|], c[i - |one| + 1]);
      }
    }
    assert PathTo(rel, all, steps, s, u);
  }
}
