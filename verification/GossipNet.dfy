// The content-gossip protocol over any number of nodes.  Every packet is handled on its own
// goroutine, so one step is one critical section, and steps of all nodes interleave freely.
// The network is the set of packets ever sent: a packet may be delivered never, late, out of
// order or many times.
module GossipNet {
  import opened Common
  import opened Manifests
  import opened ContentNode

  datatype Packet = Packet(src: Addr, dst: Addr, msg: Msg)

  // One run of OnContentManifest: handed over, version accepted, content stored.
  datatype Call =
    | Checked(raw: Bytes)
    | Accepted(raw: Bytes, m: Manifest, gen: int)
    | Stored(raw: Bytes, m: Manifest, gen: int)

  // One background sync: the outcome of each file so far, and whether the last
  // superseded-check has been passed.
  datatype Sync = Sync(m: Manifest, gen: int, reports: seq<bool>, passed: bool)

  datatype NodeState = NodeState(
    content: Content, peers: map<Addr, PeerEntry>, handler: bool,
    mts: int, gen: int, calls: map<nat, Call>, syncs: map<nat, Sync>)

  datatype System = System(nodes: map<Addr, NodeState>, net: set<Packet>, now: int)

  datatype Step =
    | Publish(n: Addr, raw: Bytes, m: Manifest)
    | Gossip(n: Addr, contacts: set<Addr>)
    | RecordHave(p: Packet)
    | AnswerHave(p: Packet)
    | AnswerWant(p: Packet)
    | TakeData(p: Packet, id: nat)
    | AcceptManifest(n: Addr, id: nat)
    | StoreManifest(n: Addr, id: nat)
    | StartSync(n: Addr, id: nat, sid: nat)
    | ReportFile(n: Addr, sid: nat, ok: bool)
    | AbortSync(n: Addr, sid: nat)
    | PassLastCheck(n: Addr, sid: nat)
    | FinishSync(n: Addr, sid: nat)
    | Forge(p: Packet)
    | Tick(dt: nat)

  predicate Outside(step: Step) {
    step.Forge? || step.Tick?
  }

  function Actor(step: Step): (a: Addr)
    requires !Outside(step)
  {
    if step.RecordHave? || step.AnswerHave? || step.AnswerWant? || step.TakeData? then step.p.dst else step.n
  }

  predicate AllTrue(reports: seq<bool>) {
    forall i :: 0 <= i < |reports| ==> reports[i]
  }

  predicate SyncedAll(y: Sync) {
    |y.reports| == |y.m.files| && AllTrue(y.reports)
  }

  // What a step demands of the node that takes it.
  predicate EnabledAt(v: Verifier, ns: NodeState, step: Step)
    requires !Outside(step)
  {
    match step
    case Publish(_, raw, m) => Verify(v, raw) == Some(m)
    case Gossip(_, _) => true
    case RecordHave(p) => p.msg.Have?
    case AnswerHave(p) => p.msg.Have?
    case AnswerWant(p) => p.msg.Want?
    case TakeData(p, id) => p.msg.Data? && id !in ns.calls
    case AcceptManifest(_, id) => id in ns.calls && ns.calls[id].Checked?
    case StoreManifest(_, id) => id in ns.calls && ns.calls[id].Accepted?
    case StartSync(_, id, sid) => id in ns.calls && ns.calls[id].Stored? && sid !in ns.syncs
    case ReportFile(_, sid, _) =>
      sid in ns.syncs && !ns.syncs[sid].passed && |ns.syncs[sid].reports| < |ns.syncs[sid].m.files|
    case AbortSync(_, sid) => sid in ns.syncs && !ns.syncs[sid].passed && ns.syncs[sid].gen != ns.gen
    case PassLastCheck(_, sid) =>
      && sid in ns.syncs && !ns.syncs[sid].passed && ns.syncs[sid].gen == ns.gen
      && |ns.syncs[sid].reports| == |ns.syncs[sid].m.files|
    case FinishSync(_, sid) => sid in ns.syncs && ns.syncs[sid].passed
  }

  predicate Enabled(v: Verifier, s: System, step: Step) {
    match step
    case Tick(_) => true
    // Anyone may send anything, under any address.
    case Forge(_) => true
    case _ =>
      && Actor(step) in s.nodes
      && (step.RecordHave? || step.AnswerHave? || step.AnswerWant? || step.TakeData? ==> step.p in s.net)
      && EnabledAt(v, s.nodes[Actor(step)], step)
  }

  function Local(v: Verifier, ns: NodeState, step: Step, now: int): (r: NodeState)
    requires !Outside(step) && EnabledAt(v, ns, step)
  {
    match step
    case Publish(_, raw, m) => ns.(content := SetContent(ns.content, raw, m.ts))
    case Gossip(_, _) => ns
    case RecordHave(p) => ns.(peers := ns.peers[p.src := PeerEntry(p.msg.ts, p.msg.complete, now)])
    case AnswerHave(_) => ns
    case AnswerWant(_) => ns
    case TakeData(p, id) =>
      if PassData(ns.content, p.msg.ts, p.msg.raw).Some? && ns.handler
      then ns.(calls := ns.calls[id := Checked(p.msg.raw)])
      else ns
    case AcceptManifest(_, id) =>
      var raw := ns.calls[id].raw;
      var got := Verify(v, raw);
      if got.Some? && got.value.ts > ns.mts then
        ns.(mts := got.value.ts, gen := ns.gen + 1, calls := ns.calls[id := Accepted(raw, got.value, ns.gen + 1)])
      else
        ns.(calls := ns.calls - {id})
    case StoreManifest(_, id) =>
      var c := ns.calls[id];
      ns.(content := SetContent(ns.content, c.raw, c.m.ts), calls := ns.calls[id := Stored(c.raw, c.m, c.gen)])
    case StartSync(_, id, sid) =>
      var c := ns.calls[id];
      ns.(content := SetComplete(ns.content, c.m.ts, false), calls := ns.calls - {id},
          syncs := ns.syncs[sid := Sync(c.m, c.gen, [], false)])
    case ReportFile(_, sid, ok) =>
      ns.(syncs := ns.syncs[sid := ns.syncs[sid].(reports := ns.syncs[sid].reports + [ok])])
    case AbortSync(_, sid) => ns.(syncs := ns.syncs - {sid})
    case PassLastCheck(_, sid) => ns.(syncs := ns.syncs[sid := ns.syncs[sid].(passed := true)])
    case FinishSync(_, sid) =>
      var y := ns.syncs[sid];
      ns.(content := if AllTrue(y.reports) then SetComplete(ns.content, y.m.ts, true) else ns.content,
          syncs := ns.syncs - {sid})
  }

  function Sends(ns: NodeState, step: Step): (r: set<Packet>) {
    match step
    case Gossip(n, contacts) =>
      if Announce(ns.content).Some? then set c | c in contacts :: Packet(n, c, Announce(ns.content).value) else {}
    case AnswerHave(p) =>
      if p.msg.Have? && ReplyToHave(ns.content, p.msg.ts).Some?
      then {Packet(p.dst, p.src, ReplyToHave(ns.content, p.msg.ts).value)} else {}
    case AnswerWant(p) =>
      if ReplyToWant(ns.content).Some? then {Packet(p.dst, p.src, ReplyToWant(ns.content).value)} else {}
    case _ => {}
  }

  function Next(v: Verifier, s: System, step: Step): (r: System)
    requires Enabled(v, s, step)
  {
    match step
    case Tick(dt) => s.(now := s.now + dt)
    case Forge(p) => s.(net := s.net + {p})
    case _ =>
      var a := Actor(step);
      System(s.nodes[a := Local(v, s.nodes[a], step, s.now)], s.net + Sends(s.nodes[a], step), s.now)
  }

  // ---- Runs ----

  ghost predicate Fresh(ns: NodeState) {
    ns.content == NOTHING && ns.peers == map[] && ns.calls == map[] && ns.syncs == map[]
  }

  // A system before any traffic.  mts may already hold a cached version (LoadCached).
  ghost predicate Init(s: System) {
    s.net == {} && forall a :: a in s.nodes ==> Fresh(s.nodes[a])
  }

  ghost predicate Follows(v: Verifier, b: seq<System>, steps: seq<Step>, i: nat)
    requires i < |steps| && |b| == |steps| + 1
  {
    Enabled(v, b[i], steps[i]) && b[i + 1] == Next(v, b[i], steps[i])
  }

  ghost predicate Run(v: Verifier, b: seq<System>, steps: seq<Step>) {
    |b| == |steps| + 1 && Init(b[0]) && forall i: nat :: i < |steps| ==> Follows(v, b, steps, i)
  }

  // ---- Every stored manifest is the one signed for exactly the stored timestamp ----

  ghost predicate Authentic(v: Verifier, c: Content) {
    if c.ts == 0 then c.raw == [] else 0 < c.ts && Verify(v, c.raw).Some? && Verify(v, c.raw).value.ts == c.ts
  }

  ghost predicate AuthenticCalls(v: Verifier, calls: map<nat, Call>) {
    forall id :: id in calls && !calls[id].Checked? ==> Verify(v, calls[id].raw) == Some(calls[id].m)
  }

  ghost predicate NodeInv(v: Verifier, ns: NodeState) {
    Authentic(v, ns.content) && AuthenticCalls(v, ns.calls)
  }

  ghost predicate Inv(v: Verifier, s: System) {
    forall a :: a in s.nodes ==> NodeInv(v, s.nodes[a])
  }

  // From one state of a node to a later one: versions do not decrease, the handler stays.
  ghost predicate Grows(was: NodeState, now: NodeState) {
    was.content.ts <= now.content.ts && was.mts <= now.mts && was.handler == now.handler
  }

  lemma LocalKeepsInv(v: Verifier, ns: NodeState, step: Step, now: int)
    requires !Outside(step) && EnabledAt(v, ns, step) && NodeInv(v, ns)
    ensures NodeInv(v, Local(v, ns, step, now)) && Grows(ns, Local(v, ns, step, now))
  {
    assert Authentic(v, Local(v, ns, step, now).content);
  }

  lemma NextAt(v: Verifier, s: System, step: Step, a: Addr)
    requires Enabled(v, s, step) && a in s.nodes
    ensures var s' := Next(v, s, step);
      && s'.nodes.Keys == s.nodes.Keys
      && s'.nodes[a] == if !Outside(step) && Actor(step) == a then Local(v, s.nodes[a], step, s.now) else s.nodes[a]
  {
  }

  lemma NextKeepsNode(v: Verifier, s: System, step: Step, a: Addr)
    requires Enabled(v, s, step) && a in s.nodes && NodeInv(v, s.nodes[a])
    ensures a in Next(v, s, step).nodes
    ensures NodeInv(v, Next(v, s, step).nodes[a]) && Grows(s.nodes[a], Next(v, s, step).nodes[a])
  {
    NextAt(v, s, step, a);
    if !Outside(step) && Actor(step) == a {
      LocalKeepsInv(v, s.nodes[a], step, s.now);
    }
  }

  lemma NextKeepsInv(v: Verifier, s: System, step: Step)
    requires Enabled(v, s, step) && Inv(v, s)
    ensures Inv(v, Next(v, s, step)) && Next(v, s, step).nodes.Keys == s.nodes.Keys
  {
    var s' := Next(v, s, step);
    forall a | a in s.nodes
      ensures a in s'.nodes && NodeInv(v, s'.nodes[a])
    {
      NextKeepsNode(v, s, step, a);
    }
    assert s'.nodes.Keys == s.nodes.Keys;
  }

  lemma {:induction false} RunKeepsInv(v: Verifier, b: seq<System>, steps: seq<Step>, i: nat)
    requires Run(v, b, steps) && i < |b|
    ensures Inv(v, b[i]) && b[i].nodes.Keys == b[0].nodes.Keys
  {
    if i > 0 {
      RunKeepsInv(v, b, steps, i - 1);
      assert Follows(v, b, steps, i - 1);
      NextKeepsInv(v, b[i - 1], steps[i - 1]);
    }
  }

  // Later in a run: versions have not decreased, and the stored bytes changed only together
  // with the stored timestamp.
  ghost predicate Advances(was: NodeState, now: NodeState) {
    Grows(was, now) && (was.content.ts == now.content.ts ==> was.content.raw == now.content.raw)
  }

  // Anti-rollback, over every run: no version counter of any node ever decreases, and the
  // stored bytes change only together with the stored timestamp.
  lemma {:induction false} NeverRollsBack(v: Verifier, b: seq<System>, steps: seq<Step>, i: nat, j: nat, a: Addr)
    requires Run(v, b, steps) && i <= j < |b| && a in b[0].nodes
    ensures a in b[i].nodes && a in b[j].nodes && Advances(b[i].nodes[a], b[j].nodes[a])
    decreases j - i
  {
    if i < j {
      NeverRollsBack(v, b, steps, i, j - 1, a);
      RunKeepsInv(v, b, steps, j - 1);
      StepAdvances(v, b, steps, j - 1, a);
    } else {
      RunKeepsInv(v, b, steps, j);
    }
  }

  lemma StepAdvances(v: Verifier, b: seq<System>, steps: seq<Step>, i: nat, a: Addr)
    requires i < |steps| && |b| == |steps| + 1 && Follows(v, b, steps, i) && Inv(v, b[i]) && a in b[i].nodes
    ensures a in b[i + 1].nodes && Advances(b[i].nodes[a], b[i + 1].nodes[a])
  {
    NextKeepsNode(v, b[i], steps[i], a);
    RawChangesOnlyWithTS(v, b[i], steps[i], a);
  }

  // Authenticity, over every run: whatever outer timestamp the packets claimed, the stored
  // manifest verifies and carries exactly the stored timestamp.
  lemma StoredManifestIsAuthentic(v: Verifier, b: seq<System>, steps: seq<Step>, i: nat, a: Addr)
    requires Run(v, b, steps) && i < |b| && a in b[0].nodes
    ensures a in b[i].nodes
    ensures var c := b[i].nodes[a].content;
      if c.ts == 0 then c.raw == [] else 0 < c.ts && Verify(v, c.raw).Some? && Verify(v, c.raw).value.ts == c.ts
  {
    RunKeepsInv(v, b, steps, i);
    assert NodeInv(v, b[i].nodes[a]);
  }

  lemma RawChangesOnlyWithTS(v: Verifier, s: System, step: Step, a: Addr)
    requires Enabled(v, s, step) && a in s.nodes
    ensures var c, d := s.nodes[a].content, Next(v, s, step).nodes[a].content;
      c.ts == d.ts ==> c.raw == d.raw
  {
  }

  // ---- "Who has it": a listed peer really finished that version ----

  ghost predicate FinishedAt(b: seq<System>, steps: seq<Step>, j: nat, p: Addr, ts: int) {
    && j < |steps| && j < |b| && steps[j].FinishSync? && steps[j].n == p && p in b[j].nodes
    && steps[j].sid in b[j].nodes[p].syncs
    && b[j].nodes[p].syncs[steps[j].sid].m.ts == ts
    && SyncedAll(b[j].nodes[p].syncs[steps[j].sid])
  }

  ghost predicate Earned(b: seq<System>, steps: seq<Step>, i: nat, p: Addr, ts: int) {
    exists j: nat :: j < i && FinishedAt(b, steps, j, p, ts)
  }

  // An outsider sent that claim under the address of p.
  ghost predicate ForgedAt(steps: seq<Step>, j: nat, p: Addr, ts: int) {
    j < |steps| && steps[j].Forge? && steps[j].p.src == p && steps[j].p.msg == Have(ts, true)
  }

  ghost predicate Claimed(b: seq<System>, steps: seq<Step>, i: nat, p: Addr, ts: int) {
    Earned(b, steps, i, p, ts) || exists j: nat :: j < i && ForgedAt(steps, j, p, ts)
  }

  ghost predicate NodeHonest(b: seq<System>, steps: seq<Step>, i: nat, ns: NodeState, a: Addr) {
    && (ns.content.complete ==> Earned(b, steps, i, a, ns.content.ts))
    && (forall sid :: sid in ns.syncs && ns.syncs[sid].passed ==> |ns.syncs[sid].reports| == |ns.syncs[sid].m.files|)
    && (forall p :: p in ns.peers && ns.peers[p].complete ==> Claimed(b, steps, i, p, ns.peers[p].ts))
  }

  ghost predicate NetHonest(b: seq<System>, steps: seq<Step>, i: nat, net: set<Packet>) {
    forall p :: p in net && p.msg.Have? && p.msg.complete ==> Claimed(b, steps, i, p.src, p.msg.ts)
  }

  ghost predicate Honest(b: seq<System>, steps: seq<Step>, i: nat, s: System) {
    && NetHonest(b, steps, i, s.net)
    && forall a :: a in s.nodes ==> NodeHonest(b, steps, i, s.nodes[a], a)
  }

  lemma HonestMono(b: seq<System>, steps: seq<Step>, i: nat, s: System)
    requires Honest(b, steps, i, s)
    ensures Honest(b, steps, i + 1, s)
  {
    assert forall p, ts :: Earned(b, steps, i, p, ts) ==> Earned(b, steps, i + 1, p, ts);
    assert forall p, ts :: Claimed(b, steps, i, p, ts) ==> Claimed(b, steps, i + 1, p, ts);
    forall a | a in s.nodes
      ensures NodeHonest(b, steps, i + 1, s.nodes[a], a)
    {
      assert NodeHonest(b, steps, i, s.nodes[a], a);
    }
  }

  // The steps that are themselves evidence: a sync that finishes with every file ok, and a
  // forged claim.
  ghost predicate Evident(b: seq<System>, steps: seq<Step>, i: nat, s: System, step: Step) {
    && (step.FinishSync? && step.n in s.nodes && step.sid in s.nodes[step.n].syncs
        && SyncedAll(s.nodes[step.n].syncs[step.sid]) ==>
          Earned(b, steps, i, step.n, s.nodes[step.n].syncs[step.sid].m.ts))
    && (step.Forge? && step.p.msg.Have? && step.p.msg.complete ==>
          Claimed(b, steps, i, step.p.src, step.p.msg.ts))
  }

  lemma LocalKeepsHonest(v: Verifier, b: seq<System>, steps: seq<Step>, i: nat, s: System, step: Step)
    requires !Outside(step) && Enabled(v, s, step) && Honest(b, steps, i, s) && Evident(b, steps, i, s, step)
    ensures NodeHonest(b, steps, i, Local(v, s.nodes[Actor(step)], step, s.now), Actor(step))
  {
    assert NodeHonest(b, steps, i, s.nodes[Actor(step)], Actor(step));
  }

  lemma SendsAreHonest(v: Verifier, b: seq<System>, steps: seq<Step>, i: nat, s: System, step: Step)
    requires !Outside(step) && Enabled(v, s, step) && Honest(b, steps, i, s)
    ensures NetHonest(b, steps, i, s.net + Sends(s.nodes[Actor(step)], step))
  {
    assert NodeHonest(b, steps, i, s.nodes[Actor(step)], Actor(step));
  }

  lemma NextKeepsHonest(v: Verifier, b: seq<System>, steps: seq<Step>, i: nat, s: System, step: Step)
    requires Enabled(v, s, step) && Honest(b, steps, i, s) && Evident(b, steps, i, s, step)
    ensures Honest(b, steps, i, Next(v, s, step))
  {
    if !Outside(step) {
      LocalKeepsHonest(v, b, steps, i, s, step);
      SendsAreHonest(v, b, steps, i, s, step);
    }
  }

  lemma {:induction false} RunIsHonest(v: Verifier, b: seq<System>, steps: seq<Step>, i: nat)
    requires Run(v, b, steps) && i < |b|
    ensures Honest(b, steps, i, b[i])
  {
    if i > 0 {
      RunIsHonest(v, b, steps, i - 1);
      HonestMono(b, steps, i - 1, b[i - 1]);
      var s, step := b[i - 1], steps[i - 1];
      assert Follows(v, b, steps, i - 1);
      if step.FinishSync? && SyncedAll(s.nodes[step.n].syncs[step.sid]) {
        assert FinishedAt(b, steps, i - 1, step.n, s.nodes[step.n].syncs[step.sid].m.ts);
      }
      if step.Forge? && step.p.msg.Have? && step.p.msg.complete {
        assert ForgedAt(steps, i - 1, step.p.src, step.p.msg.ts);
      }
      NextKeepsHonest(v, b, steps, i, s, step);
    }
  }

  // Whoever CompletePeers(ts) lists either finished, at an earlier step, a sync of exactly
  // version ts in which every file of the manifest was reported ok, or an outsider sent that
  // very claim under its address: a Have carries no signature.
  lemma ListedPeersFinished(v: Verifier, b: seq<System>, steps: seq<Step>, i: nat, a: Addr, p: Addr, ts: int)
    requires Run(v, b, steps) && i < |b| && a in b[i].nodes
    requires p in PeersFor(b[i].nodes[a].peers, ts, b[i].now)
    ensures exists j: nat :: j < i && (FinishedAt(b, steps, j, p, ts) || ForgedAt(steps, j, p, ts))
  {
    RunIsHonest(v, b, steps, i);
    assert NodeHonest(b, steps, i, b[i].nodes[a], a);
    assert Claimed(b, steps, i, p, ts);
  }

  // ---- The last word of a peer counts ----

  // Step j records a Have from p at node a.
  ghost predicate HeardAt(steps: seq<Step>, j: nat, a: Addr, p: Addr) {
    j < |steps| && steps[j].RecordHave? && steps[j].p.dst == a && steps[j].p.src == p
  }

  // Step j is the last one before i that records a Have from p at node a.
  ghost predicate LastHeard(steps: seq<Step>, i: nat, j: nat, a: Addr, p: Addr) {
    j < i && HeardAt(steps, j, a, p) && forall k: nat :: j < k < i ==> !HeardAt(steps, k, a, p)
  }

  ghost predicate Unheard(steps: seq<Step>, i: nat, a: Addr, p: Addr) {
    forall k: nat :: k < i ==> !HeardAt(steps, k, a, p)
  }

  lemma {:induction false} EntryIsLastHeard(v: Verifier, b: seq<System>, steps: seq<Step>, i: nat, a: Addr, p: Addr)
    returns (j: nat)
    requires Run(v, b, steps) && i < |b| && a in b[0].nodes
    ensures a in b[i].nodes
    ensures if p in b[i].nodes[a].peers
      then LastHeard(steps, i, j, a, p) && steps[j].p.msg.Have?
        && b[i].nodes[a].peers[p] == PeerEntry(steps[j].p.msg.ts, steps[j].p.msg.complete, b[j].now)
      else Unheard(steps, i, a, p)
  {
    j := 0;
    if i > 0 {
      j := EntryIsLastHeard(v, b, steps, i - 1, a, p);
      assert Follows(v, b, steps, i - 1);
      EntryAfter(v, b[i - 1], steps[i - 1], a, p);
      if HeardAt(steps, i - 1, a, p) {
        j := i - 1;
      }
    }
  }

  lemma EntryAfter(v: Verifier, s: System, step: Step, a: Addr, p: Addr)
    requires Enabled(v, s, step) && a in s.nodes
    ensures a in Next(v, s, step).nodes
    ensures var was, after := s.nodes[a].peers, Next(v, s, step).nodes[a].peers;
      if step.RecordHave? && step.p.dst == a && step.p.src == p
      then p in after && after[p] == PeerEntry(step.p.msg.ts, step.p.msg.complete, s.now)
      else (p in after <==> p in was) && (p in after ==> after[p] == was[p])
  {
  }

  ghost predicate SaysComplete(b: seq<System>, steps: seq<Step>, i: nat, j: nat, ts: int)
    requires i < |b| && j < |steps| < |b|
  {
    steps[j].RecordHave? && steps[j].p.msg == Have(ts, true) && b[i].now < b[j].now + 120_000_000_000
  }

  // In every run, CompletePeers(ts) of node a lists p exactly when the last Have heard from p
  // claimed completeness for exactly ts and is younger than the time limit.
  lemma LastWordCounts(v: Verifier, b: seq<System>, steps: seq<Step>, i: nat, a: Addr, p: Addr, ts: int)
    requires Run(v, b, steps) && i < |b| && a in b[0].nodes
    ensures a in b[i].nodes
    ensures p in PeersFor(b[i].nodes[a].peers, ts, b[i].now) <==>
      exists j: nat :: LastHeard(steps, i, j, a, p) && SaysComplete(b, steps, i, j, ts)
  {
    var j := EntryIsLastHeard(v, b, steps, i, a, p);
    if p in b[i].nodes[a].peers {
      assert LastHeard(steps, i, j, a, p);
      forall k: nat | LastHeard(steps, i, k, a, p)
        ensures k == j
      {
      }
    }
  }

  // ---- A finished version stays announced as complete ----

  predicate Entered(c: Call) {
    !c.Checked?
  }

  // A version is accepted at most once, so no two calls or syncs in flight share it.
  ghost predicate CallsApart(ns: NodeState) {
    && (forall c :: c in ns.calls && Entered(ns.calls[c]) ==> ns.calls[c].m.ts <= ns.mts)
    && (forall c, d :: c in ns.calls && d in ns.calls && c != d && Entered(ns.calls[c]) && Entered(ns.calls[d]) ==>
          ns.calls[c].m.ts != ns.calls[d].m.ts)
  }

  ghost predicate SyncsApart(ns: NodeState) {
    && (forall y :: y in ns.syncs ==> ns.syncs[y].m.ts <= ns.mts)
    && (forall c, y :: c in ns.calls && Entered(ns.calls[c]) && y in ns.syncs ==>
          ns.calls[c].m.ts != ns.syncs[y].m.ts)
  }

  // No call in flight will take the completeness of the stored version back.
  ghost predicate CompleteIsFinal(ns: NodeState) {
    ns.content.complete ==>
      ns.content.ts <= ns.mts && forall c :: c in ns.calls && Entered(ns.calls[c]) ==> ns.calls[c].m.ts != ns.content.ts
  }

  ghost predicate OnceEach(ns: NodeState) {
    CallsApart(ns) && SyncsApart(ns) && CompleteIsFinal(ns)
  }

  lemma KeepsCallsApart(v: Verifier, ns: NodeState, step: Step, now: int)
    requires !Outside(step) && EnabledAt(v, ns, step) && CallsApart(ns)
    ensures CallsApart(Local(v, ns, step, now))
  {
  }

  lemma KeepsSyncsApart(v: Verifier, ns: NodeState, step: Step, now: int)
    requires !Outside(step) && EnabledAt(v, ns, step) && CallsApart(ns) && SyncsApart(ns)
    ensures SyncsApart(Local(v, ns, step, now))
  {
  }

  lemma KeepsCompleteIsFinal(v: Verifier, ns: NodeState, step: Step, now: int)
    requires !Outside(step) && EnabledAt(v, ns, step) && OnceEach(ns)
    ensures CompleteIsFinal(Local(v, ns, step, now))
    ensures var after := Local(v, ns, step, now).content;
      ns.content.complete && after.ts == ns.content.ts ==> after.complete
  {
  }

  lemma {:induction false} RunIsOnceEach(v: Verifier, b: seq<System>, steps: seq<Step>, i: nat, a: Addr)
    requires Run(v, b, steps) && i < |b| && a in b[0].nodes
    ensures a in b[i].nodes && OnceEach(b[i].nodes[a])
  {
    if i > 0 {
      RunIsOnceEach(v, b, steps, i - 1, a);
      assert Follows(v, b, steps, i - 1);
      OnceEachAfter(v, b[i - 1], steps[i - 1], a);
    }
  }

  lemma OnceEachAfter(v: Verifier, s: System, step: Step, a: Addr)
    requires Enabled(v, s, step) && a in s.nodes && OnceEach(s.nodes[a])
    ensures a in Next(v, s, step).nodes && OnceEach(Next(v, s, step).nodes[a])
    ensures var was, after := s.nodes[a].content, Next(v, s, step).nodes[a].content;
      was.complete && after.ts == was.ts ==> after.complete
  {
    NextAt(v, s, step, a);
    if !Outside(step) && Actor(step) == a {
      KeepsCallsApart(v, s.nodes[a], step, s.now);
      KeepsSyncsApart(v, s.nodes[a], step, s.now);
      KeepsCompleteIsFinal(v, s.nodes[a], step, s.now);
    }
  }

  lemma FinishCompletes(v: Verifier, s: System, step: Step)
    requires step.FinishSync? && Enabled(v, s, step)
    requires SyncedAll(s.nodes[step.n].syncs[step.sid])
    requires s.nodes[step.n].syncs[step.sid].m.ts == s.nodes[step.n].content.ts
    ensures step.n in Next(v, s, step).nodes
    ensures Next(v, s, step).nodes[step.n].content == s.nodes[step.n].content.(complete := true)
  {
  }

  // The converse of ListedPeersFinished: in every run, once a node has finished a sync of the
  // version it stores with every file ok, each of its announcements says so for as long as it
  // stores that version.
  lemma {:induction false} FinishedStaysComplete(
    v: Verifier, b: seq<System>, steps: seq<Step>, j: nat, i: nat, p: Addr, ts: int)
    requires Run(v, b, steps) && j < i < |b| && p in b[0].nodes && FinishedAt(b, steps, j, p, ts)
    requires b[j].nodes[p].content.ts == ts != 0
    ensures p in b[i].nodes
    ensures b[i].nodes[p].content.ts == ts ==> Announce(b[i].nodes[p].content) == Some(Have(ts, true))
    decreases i
  {
    if i == j + 1 {
      assert Follows(v, b, steps, j);
      FinishCompletes(v, b[j], steps[j]);
    } else {
      NeverRollsBack(v, b, steps, j, i - 1, p);
      FinishedStaysComplete(v, b, steps, j, i - 1, p, ts);
      CompleteStays(v, b, steps, i - 1, p);
    }
  }

  lemma CompleteStays(v: Verifier, b: seq<System>, steps: seq<Step>, i: nat, p: Addr)
    requires Run(v, b, steps) && i < |steps| && p in b[0].nodes
    ensures p in b[i].nodes && p in b[i + 1].nodes
    ensures var was, after := b[i].nodes[p].content, b[i + 1].nodes[p].content;
      was.ts <= after.ts && (was.complete && after.ts == was.ts ==> after.complete)
  {
    NeverRollsBack(v, b, steps, i, i + 1, p);
    RunIsOnceEach(v, b, steps, i, p);
    assert Follows(v, b, steps, i);
    OnceEachAfter(v, b[i], steps[i], p);
  }
}
