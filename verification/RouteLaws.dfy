// router.go: what selection, scoring and ranking mean for the stored paths, in terms of the nodes
// themselves.
module RouteLaws {
  import opened Common
  import opened Sorting
  import opened Numbers
  import opened RoutePlan
  import opened Router

  // ---- The ranking ----

  // Chains of up to three of the nodes, pairwise of different identity and operator.
  ghost predicate ChainOf(live: seq<Node>, nodes: seq<Node>) {
    && |nodes| <= 3 && (forall i :: 0 <= i < |nodes| ==> nodes[i] in live)
    && (forall i, j :: 0 <= i < j < |nodes| ==> nodes[i].id != nodes[j].id && nodes[i].operator != nodes[j].operator)
  }

  lemma ChainsAreRoutes(live: seq<Node>, nodes: seq<Node>)
    ensures ChainOf(live, nodes) <==> Route(live, nodes)
  {
    forall i, j | 0 <= i < j < |nodes|
      ensures Apart(nodes[i], nodes[j]) <==> nodes[i].id != nodes[j].id && nodes[i].operator != nodes[j].operator
    {
    }
  }

  // Every chain of the live relays in front of a chosen control gives a path; if that path is not
  // stored, five others are, and it is preferable to none of them: a path through relays is left
  // out only for paths through relays, and among paths of one kind a lower score is kept.
  lemma LeftOutOnlyIfWorse(
    w: World, controls: seq<Node>, relays: seq<Node>, chosen: seq<Node>, live: seq<Node>, paths: seq<RouterPath>,
    d: Draft, p: RouterPath)
    requires BuiltFrom(w, controls, relays, chosen, live, paths) && d.control in chosen && ChainOf(live, d.relays)
    ensures |paths| <= 5
    ensures var q := Finished(w, chosen, live, d);
      q !in paths ==> |paths| == 5 && (p in paths ==> !Preferable(q, p))
  {
    var drafts := Candidates(chosen, live, |chosen|);
    var cands := ScoredAll(w, chosen, live, drafts);
    EmptyBest(cands, paths);
    ChainsAreRoutes(live, d.relays);
    CandidatesAreRoutes(chosen, live, d);
    ScoredMember(w, chosen, live, drafts, d);
    var q := Finished(w, chosen, live, d);
    if q !in paths {
      KeptUnlessWorse(cands, paths, paths[0], q);
      if p in paths {
        KeptUnlessWorse(cands, paths, p, q);
      }
    }
  }

  // ---- Scores ----

  // What a node adds to the score of a path: a point for each millisecond of round trip, a
  // hundred for losing everything, twenty after five seconds of silence, a hundred after fifteen.
  function Toll(w: World, n: Node): (r: real) {
    (n.rtt / 1_000_000) as real + 100.0 * n.loss +
    (if n.lastSeen + 15_000_000_000 < w.now then 100.0 else if n.lastSeen + 5_000_000_000 < w.now then 20.0 else 0.0)
  }

  function Tolls(w: World, nodes: seq<Node>): (r: real) {
    if nodes == [] then 0.0 else Toll(w, nodes[0]) + Tolls(w, nodes[1..])
  }

  // n is the first of the nodes with that address, that identity.
  ghost predicate FirstByAddr(nodes: seq<Node>, n: Node, addr: string) {
    exists i :: 0 <= i < |nodes| && nodes[i] == n && n.addr == addr && forall j :: 0 <= j < i ==> nodes[j].addr != addr
  }

  ghost predicate FirstById(nodes: seq<Node>, n: Node, id: string) {
    exists i :: 0 <= i < |nodes| && nodes[i] == n && n.id == id && forall j :: 0 <= j < i ==> nodes[j].id != id
  }

  lemma {:induction false} FindsFirstAddr(nodes: seq<Node>, n: Node, addr: string)
    requires FirstByAddr(nodes, n, addr)
    ensures FindAddr(nodes, addr) == Some(n)
  {
    var i :| 0 <= i < |nodes| && nodes[i] == n && n.addr == addr && forall j :: 0 <= j < i ==> nodes[j].addr != addr;
    if i > 0 {
      assert nodes[0].addr != addr;
      assert nodes[1..][i - 1] == n;
      FindsFirstAddr(nodes[1..], n, addr);
    }
  }

  lemma {:induction false} FindsFirstId(nodes: seq<Node>, n: Node, id: string)
    requires FirstById(nodes, n, id)
    ensures FindId(nodes, id) == Some(n)
  {
    var i :| 0 <= i < |nodes| && nodes[i] == n && n.id == id && forall j :: 0 <= j < i ==> nodes[j].id != id;
    if i > 0 {
      assert nodes[0].id != id;
      assert nodes[1..][i - 1] == n;
      FindsFirstId(nodes[1..], n, id);
    }
  }

  // The nodes the path's hops are looked up as.
  ghost predicate StandFor(live: seq<Node>, relays: seq<Hop>, nodes: seq<Node>) {
    |nodes| == |relays| && forall i :: 0 <= i < |nodes| ==> FirstById(live, nodes[i], relays[i].id)
  }

  predicate UdpFirstHop(w: World, relays: seq<Hop>) {
    relays != [] && (relays[0].id in w.udpPeers || relays[0].addr in w.udpPeers)
  }

  // The connection to the first relay: the one known by its id, else the one known by its address.
  function FirstHopPeer(w: World, relays: seq<Hop>): (peer: nat)
    requires UdpFirstHop(w, relays)
  {
    if relays[0].id in w.udpPeers then w.udpPeers[relays[0].id] else w.udpPeers[relays[0].addr]
  }

  lemma {:induction false} HopsAddUp(w: World, live: seq<Node>, relays: seq<Hop>, nodes: seq<Node>, k: nat)
    requires StandFor(live, relays, nodes) && k <= |nodes|
    ensures HopsCost(w, live, relays, k) ==
      Tolls(w, nodes[..k]) + 10.0 * k as real - (if k > 0 && UdpFirstHop(w, relays) then 30.0 else 0.0)
  {
    if k > 0 {
      HopsAddUp(w, live, relays, nodes, k - 1);
      FindsFirstId(live, nodes[k - 1], relays[k - 1].id);
      assert nodes[..k] == nodes[..k - 1] + [nodes[k - 1]];
      TollsSnoc(w, nodes[..k - 1], nodes[k - 1]);
    } else {
      assert nodes[..0] == [];
    }
  }

  lemma {:induction false} TollsSnoc(w: World, nodes: seq<Node>, n: Node)
    ensures Tolls(w, nodes + [n]) == Tolls(w, nodes) + Toll(w, n)
  {
    if nodes == [] {
      assert nodes + [n] == [n];
    } else {
      TollsSnoc(w, nodes[1..], n);
      assert (nodes + [n])[1..] == nodes[1..] + [n];
    }
  }

  // The score of a path is the tolls of its nodes, ten points a relay, thirty off if the first
  // relay is reached by UDP; and it carries that relay's connection.
  lemma ScoreAddsUp(
    w: World, chosen: seq<Node>, live: seq<Node>, d: Draft, ctl: Node, nodes: seq<Node>)
    requires FirstByAddr(chosen, ctl, d.control.addr) && StandFor(live, Bare(d).relays, nodes)
    ensures var p := Finished(w, chosen, live, d);
      && p.score == Toll(w, ctl) + Tolls(w, nodes) + 10.0 * |nodes| as real
           - (if UdpFirstHop(w, p.relays) then 30.0 else 0.0)
      && (p.udp == if UdpFirstHop(w, p.relays) then Some(FirstHopPeer(w, p.relays)) else None)
      && p.control == d.control.addr && |p.relays| == |d.relays|
      && (forall i :: 0 <= i < |p.relays| ==> p.relays[i] == Hop(d.relays[i].id, d.relays[i].addr))
  {
    FindsFirstAddr(chosen, ctl, d.control.addr);
    HopsAddUp(w, live, Bare(d).relays, nodes, |nodes|);
    assert nodes[..|nodes|] == nodes;
  }

  // ---- Node scores ----

  // The recorded evictions of the last five minutes.
  function RecentFlaps(w: World, n: Node): (r: set<int>) {
    set i | n.addr in w.flaps && 0 <= i < |w.flaps[n.addr]| && w.flaps[n.addr][i] >= w.now - 300_000_000_000
  }

  // By which controls and relays are chosen: the milliseconds m of the round trip, where traffic
  // counts seven parts to the probe's three if both are known, a hundred points for losing
  // everything, two hundred for each eviction of the last five minutes, two thousand at most.
  lemma NodeScoreAddsUp(w: World, n: Node) returns (m: nat)
    ensures NodeScore(w, n) == m as real + 100.0 * n.loss +
      (if |RecentFlaps(w, n)| < 10 then 200.0 * |RecentFlaps(w, n)| as real else 2000.0)
    ensures n.trafficRtt == 0 ==> m * 1_000_000 <= n.rtt < (m + 1) * 1_000_000
    ensures n.rtt == 0 ==> m * 1_000_000 <= n.trafficRtt < (m + 1) * 1_000_000
    ensures n.rtt > 0 && n.trafficRtt > 0 ==>
      m * 10_000_000 <= 3 * n.rtt + 7 * n.trafficRtt < (m + 1) * 10_000_000
  {
    FlapsCounted(w, n);
    if n.trafficRtt > 0 && n.rtt > 0 {
      var b := (0.3 * n.rtt as real + 0.7 * n.trafficRtt as real).Floor;
      m := b / 1_000_000;
      assert 10 * b <= 3 * n.rtt + 7 * n.trafficRtt < 10 * (b + 1);
    } else {
      m := (if n.trafficRtt > 0 then n.trafficRtt else n.rtt) / 1_000_000;
    }
  }

  lemma FlapsCounted(w: World, n: Node)
    ensures FlapPenalty(w, n.addr) ==
      if |RecentFlaps(w, n)| < 10 then 200.0 * |RecentFlaps(w, n)| as real else 2000.0
  {
    var seen := if n.addr in w.flaps then w.flaps[n.addr] else [];
    var recent := (t: int) => t >= w.now - FLAP_WINDOW;
    KeepCounts(seen, recent);
    assert RecentFlaps(w, n) == Positions(seen, recent);
  }

  // ---- Who takes part ----

  // A node is alive until thirty seconds after it was last seen, and not while its data path is
  // known to be dead.
  lemma AliveExactlyWhile(w: World, n: Node, t: int)
    ensures Alive(w.(now := t), n) <==>
      && n.isAlive && t < n.lastSeen + 30_000_000_000
      && (n.addr in w.dataDead ==> w.dataDead[n.addr] <= t)
  {
  }

  // The controls that are considered first: alive, and in the country if one there is alive.
  ghost predicate Candidate(w: World, controls: seq<Node>, c: Node) {
    c in controls && Alive(w, c) && (HomeAlive(w, controls) ==> c.country == w.myCountry)
  }

  ghost predicate TcpCandidate(w: World, controls: seq<Node>) {
    exists c :: Candidate(w, controls, c) && c.tcp
  }

  ghost predicate Abroad(w: World, controls: seq<Node>, c: Node) {
    c in controls && Alive(w, c) && c.country != w.myCountry && c.tcp && HomeAlive(w, controls)
  }

  lemma PreferredAre(w: World, controls: seq<Node>, c: Node)
    ensures c in Preferred(w, controls) <==>
      Candidate(w, controls, c) && (c.tcp || !TcpCandidate(w, controls))
    ensures c in Spare(w, controls) <==> Abroad(w, controls, c)
  {
    var alive := AliveOf(w, controls);
    var home := Keep(alive, IsHome(w));
    assert HomePolicy(w, controls) <==> HomeAlive(w, controls) by {
      if home != [] {
        assert home[0] in home;
      }
      if HomeAlive(w, controls) {
        HomePolicyApplies(w, controls);
      }
    }
    var pool := if HomePolicy(w, controls) then home else alive;
    assert forall n :: n in pool <==> Candidate(w, controls, n);
    TcpFirstAre(pool, c);
    assert TcpCandidate(w, controls) <==> exists n :: n in pool && n.tcp;
  }

  lemma TcpFirstAre(nodes: seq<Node>, c: Node)
    ensures c in TcpFirst(nodes) <==> c in nodes && (c.tcp || !exists n :: n in nodes && n.tcp)
  {
    var tcp := Keep(nodes, IsTcp());
    assert forall n :: n in tcp <==> n in nodes && n.tcp;
    if tcp != [] {
      assert tcp[0] in tcp;
    }
  }

  // Exactly which controls take part: of the candidates the TCP ones, all of them if none is;
  // and of the TCP ones abroad, only to fill up to three, as many as there are, the cheapest.
  lemma ControlsTakePart(w: World, controls: seq<Node>, chosen: seq<Node>, c: Node)
    requires Chosen(w, controls, chosen)
    ensures Candidate(w, controls, c) && (c.tcp || !TcpCandidate(w, controls)) ==> c in chosen
    ensures c in chosen ==>
      (Candidate(w, controls, c) && (c.tcp || !TcpCandidate(w, controls))) || Abroad(w, controls, c)
    ensures c in chosen && Abroad(w, controls, c) ==> |chosen| <= 3
    ensures c !in chosen && Abroad(w, controls, c) ==> |chosen| >= 3
    ensures forall n :: n in chosen && Abroad(w, controls, n) && Abroad(w, controls, c) && c !in chosen ==>
      NodeScore(w, n) <= NodeScore(w, c)
  {
    var preferred, spare := Preferred(w, controls), Spare(w, controls);
    var ranked :| Supplemented(w, preferred, spare, ranked, chosen);
    PreferredAre(w, controls, c);
    SameElements(spare, ranked);
    if Abroad(w, controls, c) {
      SomePreferred(w, controls);
      if c in chosen {
        SupplementIsCheapest(w, preferred, spare, ranked, chosen, c);
      } else {
        assert ranked[..|ranked|] == ranked;
        LeftAbroad(w, preferred, spare, ranked, chosen, c);
        forall n | n in chosen && Abroad(w, controls, n)
          ensures NodeScore(w, n) <= NodeScore(w, c)
        {
          PreferredAre(w, controls, n);
          SupplementIsCheapest(w, preferred, spare, ranked, chosen, n);
        }
      }
    }
  }

  lemma LeftAbroad(w: World, preferred: seq<Node>, spare: seq<Node>, ranked: seq<Node>, chosen: seq<Node>, c: Node)
    requires Supplemented(w, preferred, spare, ranked, chosen) && preferred != [] && c in spare && c !in chosen
    ensures |chosen| >= 3
  {
    SameElements(spare, ranked);
    assert ranked[..|ranked|] == ranked;
  }

  lemma SomePreferred(w: World, controls: seq<Node>)
    requires exists c :: c in controls && Alive(w, c)
    ensures Preferred(w, controls) != []
  {
    PreferredExists(w, controls);
  }

  // The relays considered: alive, and in the country if one there is alive.
  ghost predicate NearAlive(w: World, relays: seq<Node>) {
    w.myCountry != "" && exists n :: n in relays && Alive(w, n) && n.country == w.myCountry
  }

  ghost predicate RelayCandidate(w: World, relays: seq<Node>, n: Node) {
    n in relays && Alive(w, n) && (NearAlive(w, relays) ==> n.country == w.myCountry)
  }

  lemma PoolIs(w: World, relays: seq<Node>, n: Node)
    ensures n in RelayPool(w, relays) <==> RelayCandidate(w, relays, n)
  {
    var near := Keep(relays, IsNear(w));
    if w.myCountry != "" {
      assert forall m :: m in near <==> m in relays && Alive(w, m) && m.country == w.myCountry;
      if near != [] {
        assert near[0] in near;
      }
    }
  }

  // Exactly which relays take part: all those considered, or twenty of them than which no other
  // scores lower.
  lemma RelaysTakePart(w: World, relays: seq<Node>, live: seq<Node>, n: Node)
    requires LiveRelays(w, relays, live)
    ensures |live| <= 20 && (n in live ==> RelayCandidate(w, relays, n))
    ensures RelayCandidate(w, relays, n) && n !in live ==>
      |live| == 20 && forall m :: m in live ==> NodeScore(w, m) <= NodeScore(w, n)
  {
    var pool := RelayPool(w, relays);
    var ranked :| ByScore(w, pool, ranked) && live == ranked[..Min(20, |ranked|)];
    SameElements(pool, ranked);
    PoolIs(w, relays, n);
    if n in live {
      assert n in ranked;
    } else if RelayCandidate(w, relays, n) {
      var j :| 0 <= j < |ranked| && ranked[j] == n;
      assert j >= |live| by {
        assert n !in ranked[..Min(20, |ranked|)];
      }
      forall m | m in live
        ensures NodeScore(w, m) <= NodeScore(w, n)
      {
        var i :| 0 <= i < |live| && live[i] == m;
        assert ranked[i] == m && i < j;
      }
    }
  }

  // ---- The cursor ----

  function LastBuilt(ops: seq<Op>): (paths: seq<RouterPath>) {
    if ops == [] then []
    else if ops[|ops| - 1].Build? then ops[|ops| - 1].paths else LastBuilt(ops[..|ops| - 1])
  }

  // Advances since the paths were built or the cursor was reset.
  function AdvancesSince(ops: seq<Op>): (n: nat) {
    if ops == [] || !ops[|ops| - 1].Next? then 0 else AdvancesSince(ops[..|ops| - 1]) + 1
  }

  // After any mix of rebuilds, advances and resets the paths are those of the last rebuild, the
  // cursor has gone round them once for each advance since that or the last reset, and an
  // advance reports exhaustion exactly when it comes back to the first path.
  lemma {:induction false} CursorCountsAdvances(ops: seq<Op>)
    ensures var c := DidAll(Cursor([], 0), ops);
      && c.paths == LastBuilt(ops)
      && (c.paths != [] ==> c.idx == AdvancesSince(ops) % |c.paths|)
      && (c.paths != [] ==> (Advanced(c).1 <==> Advanced(c).0.idx != 0))
  {
    if ops != [] {
      CursorCountsAdvances(ops[..|ops| - 1]);
      var c := DidAll(Cursor([], 0), ops[..|ops| - 1]);
      if ops[|ops| - 1].Next? && c.paths != [] {
        NextModulo(AdvancesSince(ops[..|ops| - 1]), |c.paths|);
      }
    }
  }

  lemma NextModulo(k: nat, n: nat)
    requires n > 0
    ensures (k + 1) % n == if k % n + 1 < n then k % n + 1 else 0
  {
    var q, r := k / n, k % n;
    if r + 1 < n {
      ModUnique(k + 1, n, q, r + 1);
    } else {
      assert (q + 1) * n == q * n + n;
      ModUnique(k + 1, n, q + 1, 0);
    }
  }
}
