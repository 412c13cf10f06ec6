// dht/dht_content.go and mirror.go: exactly what a node sends, takes up and accepts, in every run.
module GossipLaws {
  import opened Common
  import opened Manifests
  import opened ContentNode
  import opened GossipNet

  // ---- Traffic ----

  // The step makes node a send p, from what a stores.
  ghost predicate SentBy(a: Addr, c: Content, step: Step, p: Packet) {
    match step
    case Gossip(n, contacts) =>
      n == a && c.ts != 0 && p.src == a && p.dst in contacts && p.msg == Have(c.ts, c.complete)
    case AnswerHave(q) =>
      q.dst == a && q.msg.Have? && q.msg.ts > c.ts && p == Packet(a, q.src, Want)
    case AnswerWant(q) =>
      q.dst == a && q.msg.Want? && c.raw != [] && p == Packet(a, q.src, Data(c.ts, c.raw))
    case _ => false
  }

  lemma SendsAre(v: Verifier, ns: NodeState, step: Step, p: Packet)
    requires !Outside(step) && EnabledAt(v, ns, step)
    ensures p in Sends(ns, step) <==> SentBy(Actor(step), ns.content, step, p)
  {
  }

  // In every run a packet comes into being exactly in three ways, an outsider's forgery aside: a
  // node that has a manifest announces it, a node asks for one that was announced to it as newer
  // than its own, and a node that is asked answers with what it stores.
  lemma SentExactlyWhen(v: Verifier, b: seq<System>, steps: seq<Step>, i: nat, p: Packet)
    requires Run(v, b, steps) && i < |steps|
    ensures p in b[i + 1].net <==>
      || p in b[i].net || steps[i] == Forge(p)
      || exists a :: a in b[i].nodes && SentBy(a, b[i].nodes[a].content, steps[i], p)
  {
    assert Follows(v, b, steps, i);
    if !Outside(steps[i]) {
      var a := Actor(steps[i]);
      SendsAre(v, b[i].nodes[a], steps[i], p);
    }
  }

  // Data is handed on exactly when it claims to be newer than what is stored and somebody wants
  // it; otherwise nothing at all happens at the node.
  lemma TakenExactlyWhen(v: Verifier, b: seq<System>, steps: seq<Step>, i: nat)
    requires Run(v, b, steps) && i < |steps| && steps[i].TakeData?
    ensures var p, id := steps[i].p, steps[i].id;
      p.msg.Data? && p.dst in b[i].nodes && p.dst in b[i + 1].nodes && (
        var was, now := b[i].nodes[p.dst], b[i + 1].nodes[p.dst];
        if p.msg.ts > was.content.ts && was.handler
        then id !in was.calls && now == was.(calls := was.calls[id := Checked(p.msg.raw)])
        else now == was)
  {
    assert Follows(v, b, steps, i);
  }

  // ---- Acceptance ----

  // The bytes parse as a content manifest and, if a key is configured, its signature checks.
  ghost predicate Genuine(v: Verifier, raw: Bytes, m: Manifest) {
    v.parse(raw) == Some(m) && m.kind == "content" && (v.hasKey ==> v.signed(m))
  }

  lemma VerifyIsGenuine(v: Verifier, raw: Bytes, m: Manifest)
    ensures Verify(v, raw) == Some(m) <==> Genuine(v, raw, m)
  {
  }

  // A manifest handed over is accepted exactly when it is genuine and newer than every one
  // accepted or cached before; then the version and the generation move on, otherwise it is
  // dropped and nothing else changes.
  lemma AcceptedExactlyWhen(v: Verifier, b: seq<System>, steps: seq<Step>, i: nat, m: Manifest)
    requires Run(v, b, steps) && i < |steps| && steps[i].AcceptManifest?
    ensures var n, id := steps[i].n, steps[i].id;
      n in b[i].nodes && n in b[i + 1].nodes && id in b[i].nodes[n].calls && (
        var was, now := b[i].nodes[n], b[i + 1].nodes[n];
        var raw := was.calls[id].raw;
        && (Genuine(v, raw, m) && m.ts > was.mts ==>
              now == was.(mts := m.ts, gen := was.gen + 1, calls := was.calls[id := Accepted(raw, m, was.gen + 1)]))
        && (Genuine(v, raw, m) && m.ts <= was.mts ==> now == was.(calls := was.calls - {id}))
        && ((forall g :: !Genuine(v, raw, g)) ==> now == was.(calls := was.calls - {id})))
  {
    assert Follows(v, b, steps, i);
    var raw := b[i].nodes[steps[i].n].calls[steps[i].id].raw;
    VerifyIsGenuine(v, raw, m);
    if Verify(v, raw).Some? {
      VerifyIsGenuine(v, raw, Verify(v, raw).value);
    }
  }

  // What is stored is genuine and carries exactly the stored timestamp, whatever packets claimed.
  lemma StoredIsGenuine(v: Verifier, b: seq<System>, steps: seq<Step>, i: nat, a: Addr)
    requires Run(v, b, steps) && i < |b| && a in b[0].nodes
    ensures a in b[i].nodes
    ensures var c := b[i].nodes[a].content;
      if c.ts == 0 then c.raw == []
      else
        var m := v.parse(c.raw);
        0 < c.ts && m.Some? && m.value.ts == c.ts && Genuine(v, c.raw, m.value)
  {
    StoredManifestIsAuthentic(v, b, steps, i, a);
    var c := b[i].nodes[a].content;
    if c.ts != 0 {
      VerifyIsGenuine(v, c.raw, Verify(v, c.raw).value);
    }
  }

  // ---- Generations ----

  // The generation tells exactly whether the version is still the newest accepted.
  predicate GenTells(ns: NodeState, m: Manifest, gen: int) {
    if gen == ns.gen then m.ts == ns.mts else gen < ns.gen && m.ts < ns.mts
  }

  ghost predicate GensTell(ns: NodeState) {
    && (forall id :: id in ns.calls && !ns.calls[id].Checked? ==> GenTells(ns, ns.calls[id].m, ns.calls[id].gen))
    && (forall sid :: sid in ns.syncs ==> GenTells(ns, ns.syncs[sid].m, ns.syncs[sid].gen))
  }

  lemma GensTellOn(v: Verifier, ns: NodeState, step: Step, now: int)
    requires !Outside(step) && EnabledAt(v, ns, step) && GensTell(ns)
    ensures GensTell(Local(v, ns, step, now))
  {
  }

  ghost predicate AllTell(s: System) {
    forall a :: a in s.nodes ==> GensTell(s.nodes[a])
  }

  lemma {:induction false} RunTells(v: Verifier, b: seq<System>, steps: seq<Step>, i: nat)
    requires Run(v, b, steps) && i < |b|
    ensures AllTell(b[i])
  {
    if i > 0 {
      RunTells(v, b, steps, i - 1);
      assert Follows(v, b, steps, i - 1);
      forall a | a in b[i].nodes
        ensures GensTell(b[i].nodes[a])
      {
        NextAt(v, b[i - 1], steps[i - 1], a);
        if !Outside(steps[i - 1]) && Actor(steps[i - 1]) == a {
          GensTellOn(v, b[i - 1].nodes[a], steps[i - 1], b[i - 1].now);
        }
      }
    }
  }

  // In every run a sync passes its last check only while its version is the newest accepted, and
  // is given up only when a newer one has been.
  lemma SupersededExactlyWhen(v: Verifier, b: seq<System>, steps: seq<Step>, i: nat)
    requires Run(v, b, steps) && i < |steps| && (steps[i].PassLastCheck? || steps[i].AbortSync?)
    ensures var n, sid := steps[i].n, steps[i].sid;
      n in b[i].nodes && sid in b[i].nodes[n].syncs && (
        var version, newest := b[i].nodes[n].syncs[sid].m.ts, b[i].nodes[n].mts;
        if steps[i].PassLastCheck? then version == newest else version < newest)
  {
    assert Follows(v, b, steps, i);
    RunTells(v, b, steps, i);
    assert GensTell(b[i].nodes[steps[i].n]);
  }
}
