// Convergence of the content gossip: what loss-free rounds guarantee.
module Convergence {
  import opened Common
  import opened Manifests
  import opened ContentNode
  import opened GossipNet

  type Graph = map<Addr, set<Addr>>

  // The mirror version is still the one cached at the start, or at most the stored one, unless
  // an accepted manifest is still on its way into the store.
  ghost predicate InStep(ns: NodeState, cached: int) {
    || ns.mts <= cached
    || ns.mts <= ns.content.ts
    || exists id :: id in ns.calls && ns.calls[id].Accepted? && ns.calls[id].m.ts == ns.mts
  }

  lemma LocalKeepsInStep(v: Verifier, ns: NodeState, step: Step, now: int, cached: int)
    requires !Outside(step) && EnabledAt(v, ns, step) && NodeInv(v, ns) && InStep(ns, cached)
    ensures InStep(Local(v, ns, step, now), cached)
  {
    var ns' := Local(v, ns, step, now);
    LocalKeepsInv(v, ns, step, now);
    if cached < ns.mts && ns.mts > ns.content.ts && ns'.mts > ns'.content.ts {
      if ns'.mts == ns.mts {
        var id :| id in ns.calls && ns.calls[id].Accepted? && ns.calls[id].m.ts == ns.mts;
        assert id in ns'.calls && ns'.calls[id] == ns.calls[id];
      } else {
        assert step.id in ns'.calls && ns'.calls[step.id].m.ts == ns'.mts;
      }
    } else if cached < ns'.mts && ns'.mts > ns'.content.ts {
      assert step.AcceptManifest?;
      assert step.id in ns'.calls && ns'.calls[step.id].m.ts == ns'.mts;
    }
  }

  lemma {:induction false} RunKeepsInStep(v: Verifier, b: seq<System>, steps: seq<Step>, i: nat, a: Addr)
    requires Run(v, b, steps) && i < |b| && a in b[0].nodes
    ensures a in b[i].nodes && InStep(b[i].nodes[a], b[0].nodes[a].mts)
  {
    if i > 0 {
      RunKeepsInStep(v, b, steps, i - 1, a);
      RunKeepsInv(v, b, steps, i - 1);
      assert Follows(v, b, steps, i - 1);
      var s, step := b[i - 1], steps[i - 1];
      if !Outside(step) && Actor(step) == a {
        assert NodeInv(v, s.nodes[a]);
        LocalKeepsInStep(v, s.nodes[a], step, s.now, b[0].nodes[a].mts);
      }
    }
  }

  // ---- A loss-free round: the stretch of a run between steps lo and hi ----

  ghost predicate Happens(steps: seq<Step>, step: Step, from: nat, to: nat) {
    exists k: nat :: from <= k < to && k < |steps| && steps[k] == step
  }

  // The node that owns the packet handles it at some step between from and to.
  ghost predicate Handled(steps: seq<Step>, p: Packet, from: nat, to: nat) {
    match p.msg
    case Have(_, _) => Happens(steps, AnswerHave(p), from, to)
    case Want => Happens(steps, AnswerWant(p), from, to)
    case Data(_, _) => exists id: nat :: Happens(steps, TakeData(p, id), from, to)
  }

  ghost predicate SentIn(b: seq<System>, steps: seq<Step>, p: Packet, i: nat) {
    && i < |steps| && i < |b| && !Outside(steps[i]) && Actor(steps[i]) in b[i].nodes
    && p in Sends(b[i].nodes[Actor(steps[i])], steps[i])
  }

  ghost predicate Gossips(steps: seq<Step>, a: Addr, contacts: set<Addr>, from: nat, to: nat) {
    exists k: nat :: from <= k < to && k < |steps| && steps[k].Gossip? && steps[k].n == a
      && contacts <= steps[k].contacts
  }

  // Nothing is lost: every node announces to its contacts, every packet sent to a node in the
  // round is handled in the round, and every manifest handed over is acted on in the round.
  ghost predicate LossFreeRound(b: seq<System>, steps: seq<Step>, g: Graph, lo: nat, hi: nat) {
    && lo <= hi <= |steps| < |b|
    && (forall a :: a in g ==> Gossips(steps, a, g[a], lo, hi))
    && (forall p, i: nat :: lo <= i < hi && SentIn(b, steps, p, i) && p.dst in b[i].nodes ==>
          Handled(steps, p, i + 1, hi))
    && (forall a, id: nat, i: nat :: lo <= i <= hi && InCheck(b[i], a, id) ==>
          Happens(steps, AcceptManifest(a, id), i, hi))
    && (forall a, id: nat, i: nat :: lo <= i <= hi && InStore(b[i], a, id) ==>
          Happens(steps, StoreManifest(a, id), i, hi))
  }

  ghost predicate InCheck(s: System, a: Addr, id: nat) {
    a in s.nodes && id in s.nodes[a].calls && s.nodes[a].calls[id].Checked?
  }

  ghost predicate InStore(s: System, a: Addr, id: nat) {
    a in s.nodes && id in s.nodes[a].calls && s.nodes[a].calls[id].Accepted?
  }

  ghost predicate GraphOver(s: System, g: Graph) {
    && g.Keys <= s.nodes.Keys
    && (forall a :: a in g ==> g[a] <= s.nodes.Keys)
    && (forall a, c :: a in g && c in g[a] ==> s.nodes[c].handler)
  }

  // The setting of every lemma below: a run and a loss-free round of it.
  ghost predicate Setting(v: Verifier, b: seq<System>, steps: seq<Step>, g: Graph, lo: nat, hi: nat) {
    && v.parse([]) == None
    && Run(v, b, steps) && GraphOver(b[0], g)
    && LossFreeRound(b, steps, g, lo, hi)
  }

  ghost predicate Holds(s: System, a: Addr, t: int) {
    a in s.nodes && s.nodes[a].content.ts >= t
  }

  // Once a node holds version t it keeps holding it.
  lemma HoldsOn(v: Verifier, b: seq<System>, steps: seq<Step>, i: nat, j: nat, a: Addr, t: int)
    requires Run(v, b, steps) && i <= j < |b| && a in b[0].nodes && Holds(b[i], a, t)
    ensures Holds(b[j], a, t)
  {
    NeverRollsBack(v, b, steps, i, j, a);
  }

  // An accepted call is unchanged until its own StoreManifest step.
  lemma StoringReaches(v: Verifier, b: seq<System>, steps: seq<Step>, i: nat, k: nat, a: Addr, id: nat)
    requires Run(v, b, steps) && i <= k < |steps| && steps[k] == StoreManifest(a, id)
    requires InStore(b[i], a, id)
    ensures Holds(b[k + 1], a, b[i].nodes[a].calls[id].m.ts)
    decreases k - i
  {
    assert Follows(v, b, steps, i);
    var t := b[i].nodes[a].calls[id].m.ts;
    RunKeepsInv(v, b, steps, i);
    if steps[i] == StoreManifest(a, id) {
      assert Holds(b[i + 1], a, t);
      HoldsOn(v, b, steps, i + 1, k + 1, a, t);
    } else {
      CallStays(v, b[i], steps[i], a, id);
      StoringReaches(v, b, steps, i + 1, k, a, id);
    }
  }

  lemma CallStays(v: Verifier, s: System, step: Step, a: Addr, id: nat)
    requires Enabled(v, s, step) && (InStore(s, a, id) || InCheck(s, a, id))
    requires step != StoreManifest(a, id) && step != AcceptManifest(a, id)
    ensures a in Next(v, s, step).nodes && id in Next(v, s, step).nodes[a].calls
    ensures Next(v, s, step).nodes[a].calls[id] == s.nodes[a].calls[id]
  {
  }

  // Whatever version the mirror has accepted since the start is stored by the end of the round.
  lemma AcceptedIsStored(v: Verifier, b: seq<System>, steps: seq<Step>, g: Graph, lo: nat, hi: nat, i: nat, a: Addr)
    requires Setting(v, b, steps, g, lo, hi) && lo <= i <= hi && a in b[0].nodes
    ensures a in b[i].nodes && (b[0].nodes[a].mts < b[i].nodes[a].mts ==> Holds(b[hi], a, b[i].nodes[a].mts))
  {
    RunKeepsInv(v, b, steps, i);
    RunKeepsInStep(v, b, steps, i, a);
    var ns := b[i].nodes[a];
    if ns.mts <= b[0].nodes[a].mts {
    } else if ns.mts <= ns.content.ts {
      HoldsOn(v, b, steps, i, hi, a, ns.mts);
    } else {
      var id :| id in ns.calls && ns.calls[id].Accepted? && ns.calls[id].m.ts == ns.mts;
      assert InStore(b[i], a, id);
      assert Happens(steps, StoreManifest(a, id), i, hi);
      var k: nat :| i <= k < hi && k < |steps| && steps[k] == StoreManifest(a, id);
      StoringReaches(v, b, steps, i, k, a, id);
      HoldsOn(v, b, steps, k + 1, hi, a, ns.mts);
    }
  }

  // A call being checked stays as it is until its own AcceptManifest step, which leaves the
  // mirror at that version or a newer one.
  lemma CheckingReaches(v: Verifier, b: seq<System>, steps: seq<Step>, i: nat, k: nat, a: Addr, id: nat, m: Manifest)
    returns (j: nat)
    requires Run(v, b, steps) && i <= k < |steps| && steps[k] == AcceptManifest(a, id)
    requires InCheck(b[i], a, id) && Verify(v, b[i].nodes[a].calls[id].raw) == Some(m)
    ensures i < j <= k + 1 && a in b[j].nodes && b[j].nodes[a].mts >= m.ts
    decreases k - i
  {
    assert Follows(v, b, steps, i);
    if steps[i] == AcceptManifest(a, id) {
      j := i + 1;
    } else {
      CallStays(v, b[i], steps[i], a, id);
      j := CheckingReaches(v, b, steps, i + 1, k, a, id, m);
    }
  }

  // A Data packet carrying a verified manifest of version t, taken in the round.
  lemma DataTaken(
    v: Verifier, b: seq<System>, steps: seq<Step>, g: Graph, lo: nat, hi: nat, k: nat, p: Packet, id: nat, m: Manifest)
    requires Setting(v, b, steps, g, lo, hi) && lo <= k < hi && steps[k] == TakeData(p, id)
    requires p.msg.Data? && Verify(v, p.msg.raw) == Some(m) && m.ts == p.msg.ts
    requires p.dst in b[0].nodes && b[0].nodes[p.dst].handler && b[0].nodes[p.dst].mts < m.ts
    ensures Holds(b[hi], p.dst, m.ts)
  {
    var a := p.dst;
    RunKeepsInv(v, b, steps, k);
    NeverRollsBack(v, b, steps, 0, k, a);
    assert Follows(v, b, steps, k);
    if b[k].nodes[a].content.ts >= m.ts {
      HoldsOn(v, b, steps, k, hi, a, m.ts);
    } else {
      assert InCheck(b[k + 1], a, id) && b[k + 1].nodes[a].calls[id].raw == p.msg.raw;
      assert Happens(steps, AcceptManifest(a, id), k + 1, hi);
      var c: nat :| k + 1 <= c < hi && c < |steps| && steps[c] == AcceptManifest(a, id);
      var j := CheckingReaches(v, b, steps, k + 1, c, a, id, m);
      AcceptedIsStored(v, b, steps, g, lo, hi, j, a);
    }
  }

  // A Want packet answered in the round by a node that holds version t.
  lemma WantAnswered(
    v: Verifier, b: seq<System>, steps: seq<Step>, g: Graph, lo: nat, hi: nat, k: nat, p: Packet, t: int)
    requires Setting(v, b, steps, g, lo, hi) && lo <= k < hi && steps[k] == AnswerWant(p)
    requires Holds(b[k], p.dst, t) && 0 < t
    requires p.src in b[0].nodes && b[0].nodes[p.src].handler && b[0].nodes[p.src].mts < t
    ensures Holds(b[hi], p.src, t)
  {
    RunKeepsInv(v, b, steps, k);
    assert Follows(v, b, steps, k);
    StoredManifestIsAuthentic(v, b, steps, k, p.dst);
    var c := b[k].nodes[p.dst].content;
    assert c.raw != [];
    var q := Packet(p.dst, p.src, Data(c.ts, c.raw));
    assert ReplyToWant(c) == Some(q.msg);
    assert SentIn(b, steps, q, k);
    assert Handled(steps, q, k + 1, hi);
    var id: nat :| Happens(steps, TakeData(q, id), k + 1, hi);
    var j: nat :| k + 1 <= j < hi && j < |steps| && steps[j] == TakeData(q, id);
    DataTaken(v, b, steps, g, lo, hi, j, q, id, Verify(v, c.raw).value);
    assert Holds(b[hi], p.src, t);
  }

  // A Have packet for version t answered in the round.
  lemma HaveAnswered(
    v: Verifier, b: seq<System>, steps: seq<Step>, g: Graph, lo: nat, hi: nat, k: nat, p: Packet, t: int)
    requires Setting(v, b, steps, g, lo, hi) && lo <= k < hi && steps[k] == AnswerHave(p)
    requires p.msg.Have? && 0 < t <= p.msg.ts && Holds(b[k], p.src, t) && p.src in b[0].nodes
    requires p.dst in b[0].nodes && b[0].nodes[p.dst].handler && b[0].nodes[p.dst].mts < t
    ensures Holds(b[hi], p.dst, t)
  {
    RunKeepsInv(v, b, steps, k);
    assert Follows(v, b, steps, k);
    if b[k].nodes[p.dst].content.ts >= t {
      HoldsOn(v, b, steps, k, hi, p.dst, t);
    } else {
      var q := Packet(p.dst, p.src, Want);
      assert ReplyToHave(b[k].nodes[p.dst].content, p.msg.ts) == Some(q.msg);
      assert SentIn(b, steps, q, k);
      assert Handled(steps, q, k + 1, hi);
      var j: nat :| k + 1 <= j < hi && j < |steps| && steps[j] == AnswerWant(q);
      HoldsOn(v, b, steps, k, j, p.src, t);
      WantAnswered(v, b, steps, g, lo, hi, j, q, t);
    }
  }

  // One loss-free round carries a version across one contact edge, to a node that did not
  // start with that version or a newer one cached.
  lemma RoundCarries(
    v: Verifier, b: seq<System>, steps: seq<Step>, g: Graph, lo: nat, hi: nat, a: Addr, c: Addr, t: int)
    requires Setting(v, b, steps, g, lo, hi) && a in g && c in g[a]
    requires 0 < t && Holds(b[lo], a, t) && b[0].nodes[c].mts < t
    ensures Holds(b[hi], c, t)
  {
    assert Gossips(steps, a, g[a], lo, hi);
    var k: nat :| lo <= k < hi && k < |steps| && steps[k].Gossip? && steps[k].n == a && g[a] <= steps[k].contacts;
    RunKeepsInv(v, b, steps, k);
    HoldsOn(v, b, steps, lo, k, a, t);
    var content := b[k].nodes[a].content;
    var p := Packet(a, c, Have(content.ts, content.complete));
    assert Announce(content) == Some(p.msg);
    assert SentIn(b, steps, p, k);
    assert Handled(steps, p, k + 1, hi);
    var j: nat :| k + 1 <= j < hi && j < |steps| && steps[j] == AnswerHave(p);
    HoldsOn(v, b, steps, k, j, a, t);
    HaveAnswered(v, b, steps, g, lo, hi, j, p, t);
  }

  // ---- d rounds, d hops ----

  ghost predicate Rounds(b: seq<System>, steps: seq<Step>, g: Graph, cuts: seq<nat>) {
    && 0 < |cuts|
    && cuts[0] < |b|
    && (forall r :: 0 <= r < |cuts| - 1 ==> LossFreeRound(b, steps, g, cuts[r], cuts[r + 1]))
  }

  ghost predicate Path(g: Graph, path: seq<Addr>) {
    0 < |path| && forall k :: 0 <= k < |path| - 1 ==> path[k] in g && path[k + 1] in g[path[k]]
  }

  // Every node of the path but the first started with an older version cached, or none.
  ghost predicate OlderCached(s: System, path: seq<Addr>, t: int) {
    forall k :: 0 < k < |path| ==> path[k] in s.nodes && s.nodes[path[k]].mts < t
  }

  // After d loss-free rounds every node within d contact hops of a node that held version t,
  // over nodes that started with older versions cached, holds version t or a newer one, with a
  // manifest that verifies for the version it holds.
  lemma {:induction false} GossipConverges(
    v: Verifier, b: seq<System>, steps: seq<Step>, g: Graph, cuts: seq<nat>, path: seq<Addr>, t: int)
    requires v.parse([]) == None && Run(v, b, steps) && GraphOver(b[0], g)
    requires Rounds(b, steps, g, cuts) && Path(g, path) && |path| <= |cuts|
    requires 0 < t && Holds(b[cuts[0]], path[0], t) && OlderCached(b[0], path, t)
    ensures var end, a := cuts[|cuts| - 1], path[|path| - 1];
      && end < |b| && Holds(b[end], a, t)
      && Verify(v, b[end].nodes[a].content.raw).Some?
      && Verify(v, b[end].nodes[a].content.raw).value.ts == b[end].nodes[a].content.ts
    decreases |cuts|
  {
    RunKeepsInv(v, b, steps, cuts[0]);
    if |cuts| > 1 {
      var lo, hi := cuts[0], cuts[1];
      assert LossFreeRound(b, steps, g, lo, hi);
      assert Setting(v, b, steps, g, lo, hi);
      if |path| > 1 {
        RoundCarries(v, b, steps, g, lo, hi, path[0], path[1], t);
        assert Path(g, path[1..]) && OlderCached(b[0], path[1..], t);
        RoundsTail(b, steps, g, cuts);
        GossipConverges(v, b, steps, g, cuts[1..], path[1..], t);
      } else {
        HoldsOn(v, b, steps, lo, hi, path[0], t);
        RoundsTail(b, steps, g, cuts);
        GossipConverges(v, b, steps, g, cuts[1..], path, t);
      }
    } else {
      StoredManifestIsAuthentic(v, b, steps, cuts[0], path[0]);
    }
  }

  lemma RoundsTail(b: seq<System>, steps: seq<Step>, g: Graph, cuts: seq<nat>)
    requires Rounds(b, steps, g, cuts) && |cuts| > 1
    ensures Rounds(b, steps, g, cuts[1..])
  {
    assert LossFreeRound(b, steps, g, cuts[0], cuts[1]);
    forall r | 0 <= r < |cuts[1..]| - 1
      ensures LossFreeRound(b, steps, g, cuts[1..][r], cuts[1..][r + 1])
    {
      assert LossFreeRound(b, steps, g, cuts[r + 1], cuts[r + 2]);
    }
  }

  // ---- Exactly which nodes converge ----

  ghost predicate Stuck(ns: NodeState, t: int) {
    && ns.mts == t && ns.content.ts == 0
    && forall id :: id in ns.calls ==> ns.calls[id].Checked?
  }

  // A restarted node whose cached version is already the newest one (LoadCached sets the
  // mirror version but not the stored content) drops every manifest it is handed: in no run,
  // lossless or not, does it ever hold or announce a manifest again.
  lemma {:induction false} CachedNodeNeverHolds(v: Verifier, b: seq<System>, steps: seq<Step>, i: nat, a: Addr)
    requires Run(v, b, steps) && i < |b| && a in b[0].nodes
    requires forall raw :: Verify(v, raw).Some? ==> Verify(v, raw).value.ts <= b[0].nodes[a].mts
    requires forall k :: 0 <= k < |steps| && steps[k].Publish? ==> steps[k].n != a
    ensures a in b[i].nodes && Stuck(b[i].nodes[a], b[0].nodes[a].mts)
    ensures b[i].nodes[a].content.ts == 0 && Announce(b[i].nodes[a].content) == None
  {
    if i > 0 {
      CachedNodeNeverHolds(v, b, steps, i - 1, a);
      assert Follows(v, b, steps, i - 1);
      StuckStays(v, b[i - 1], steps[i - 1], a, b[0].nodes[a].mts);
    }
  }

  lemma StuckStays(v: Verifier, s: System, step: Step, a: Addr, t: int)
    requires Enabled(v, s, step) && a in s.nodes && Stuck(s.nodes[a], t)
    requires forall raw :: Verify(v, raw).Some? ==> Verify(v, raw).value.ts <= t
    requires step.Publish? ==> step.n != a
    ensures a in Next(v, s, step).nodes && Stuck(Next(v, s, step).nodes[a], t)
  {
  }

  // For the newest version there is, and a node that publishes nothing itself, the condition
  // on the cached version is exact: at the end of a path of length d, after d loss-free rounds,
  // the node holds that version if and only if it did not start with it cached.
  lemma ConvergesExactlyWhen(v: Verifier, b: seq<System>, steps: seq<Step>, g: Graph, cuts: seq<nat>,
                             path: seq<Addr>, t: int)
    requires v.parse([]) == None && Run(v, b, steps) && GraphOver(b[0], g)
    requires Rounds(b, steps, g, cuts) && Path(g, path) && |path| <= |cuts|
    requires 0 < t && Holds(b[cuts[0]], path[0], t) && OlderCached(b[0], path[..|path| - 1], t)
    requires forall raw :: Verify(v, raw).Some? ==> Verify(v, raw).value.ts <= t
    requires forall k :: 0 <= k < |steps| && steps[k].Publish? ==> steps[k].n != path[|path| - 1]
    ensures var end, a := cuts[|cuts| - 1], path[|path| - 1];
      end < |b| && a in b[0].nodes && (Holds(b[end], a, t) <==> b[0].nodes[a].mts < t)
  {
    var end, n := cuts[|cuts| - 1], |path| - 1;
    var a := path[n];
    RunKeepsInv(v, b, steps, cuts[0]);
    if n > 0 {
      assert path[n - 1] in g && path[n - 1 + 1] in g[path[n - 1]];
    }
    CutsInRange(b, steps, g, cuts);
    if b[0].nodes[a].mts < t {
      forall k | 0 < k < |path|
        ensures path[k] in b[0].nodes && b[0].nodes[path[k]].mts < t
      {
        if k < n {
          assert path[..n][k] == path[k];
        }
      }
      GossipConverges(v, b, steps, g, cuts, path, t);
    } else {
      CachedNodeNeverHolds(v, b, steps, end, a);
    }
  }

  lemma CutsInRange(b: seq<System>, steps: seq<Step>, g: Graph, cuts: seq<nat>)
    requires Rounds(b, steps, g, cuts)
    ensures cuts[|cuts| - 1] < |b|
  {
    if |cuts| > 1 {
      assert LossFreeRound(b, steps, g, cuts[|cuts| - 2], cuts[|cuts| - 2 + 1]);
    }
  }
}
