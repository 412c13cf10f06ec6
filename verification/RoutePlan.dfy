// router.go: which controls and relays qualify, which paths they give, how paths are scored.
// Floats are reals and one clock reading is used per call.
module RoutePlan {
  import opened Common
  import opened Sorting

  type Fraction = x: real | 0.0 <= x <= 1.0

  const SECOND := 1_000_000_000
  const FLAP_WINDOW := 300 * SECOND

  // Durations in nanoseconds; tcp is the detected transport (false = UDP only).
  datatype Node = Node(id: string, addr: string, operator: string, country: string, rtt: nat, trafficRtt: nat,
                       loss: Fraction, lastSeen: int, isAlive: bool, tcp: bool)

  datatype Hop = Hop(id: string, addr: string)

  datatype RouterPath = RouterPath(relays: seq<Hop>, control: string, score: real, udp: Option<nat>)

  // The router's tables at the moment of a call.
  datatype World =
    World(now: int, myCountry: string, dataDead: map<string, int>, flaps: map<string, seq<int>>,
          udpPeers: map<string, nat>)

  predicate Alive(w: World, n: Node) {
    n.isAlive && w.now - n.lastSeen < 30 * SECOND && !(n.addr in w.dataDead && w.now < w.dataDead[n.addr])
  }

  // ---- Scores ----

  function Millis(d: nat): (r: real) {
    (d / 1_000_000) as real
  }

  function FlapPenalty(w: World, addr: string): (r: real) {
    var seen := if addr in w.flaps then w.flaps[addr] else [];
    var penalty := |Keep(seen, t => t >= w.now - FLAP_WINDOW)| as real * 200.0;
    if penalty > 2000.0 then 2000.0 else penalty
  }

  function NodeScore(w: World, n: Node): (r: real) {
    var rtt: nat :=
      if n.trafficRtt > 0 && n.rtt > 0 then
        var blended := 0.3 * n.rtt as real + 0.7 * n.trafficRtt as real;
        assert blended >= 0.0;
        blended.Floor
      else if n.trafficRtt > 0 then n.trafficRtt
      else n.rtt;
    Millis(rtt) + n.loss * 100.0 + FlapPenalty(w, n.addr)
  }

  function Instability(w: World, n: Node): (r: real) {
    var since := w.now - n.lastSeen;
    if since > 15 * SECOND then 100.0 else if since > 5 * SECOND then 20.0 else 0.0
  }

  function NodeCost(w: World, n: Node): (r: real)
    ensures r >= 0.0
  {
    Millis(n.rtt) + n.loss * 100.0 + Instability(w, n)
  }

  function FindAddr(nodes: seq<Node>, addr: string): (r: Option<Node>) {
    if nodes == [] then None else if nodes[0].addr == addr then Some(nodes[0]) else FindAddr(nodes[1..], addr)
  }

  function FindId(nodes: seq<Node>, id: string): (r: Option<Node>) {
    if nodes == [] then None else if nodes[0].id == id then Some(nodes[0]) else FindId(nodes[1..], id)
  }

  function UdpPeer(w: World, hop: Hop): (r: Option<nat>) {
    if hop.id in w.udpPeers then Some(w.udpPeers[hop.id])
    else if hop.addr in w.udpPeers then Some(w.udpPeers[hop.addr])
    else None
  }

  function HopCost(w: World, live: seq<Node>, hop: Hop): (r: real)
    ensures r >= 10.0
  {
    (if FindId(live, hop.id).Some? then NodeCost(w, FindId(live, hop.id).value) else 0.0) + 10.0
  }

  // The relays' share of the score of the first k hops.
  function HopsCost(w: World, live: seq<Node>, relays: seq<Hop>, k: nat): (r: real)
    requires k <= |relays|
  {
    if k == 0 then 0.0
    else HopsCost(w, live, relays, k - 1) + HopCost(w, live, relays[k - 1])
         - (if k == 1 && UdpPeer(w, relays[0]).Some? then 30.0 else 0.0)
  }

  function ControlCost(w: World, controls: seq<Node>, addr: string): (r: real) {
    if FindAddr(controls, addr).Some? then NodeCost(w, FindAddr(controls, addr).value) else 0.0
  }

  function Scored(w: World, controls: seq<Node>, live: seq<Node>, p: RouterPath): (r: RouterPath) {
    RouterPath(p.relays, p.control,
               ControlCost(w, controls, p.control) + HopsCost(w, live, p.relays, |p.relays|),
               if p.relays == [] then p.udp else UdpPeer(w, p.relays[0]))
  }

  // ---- Candidate paths ----

  function HopOf(n: Node): (h: Hop) {
    Hop(n.id, n.addr)
  }

  // A candidate before scoring: the control and the relays in front of it.
  datatype Draft = Draft(control: Node, relays: seq<Node>)

  function Bare(d: Draft): (p: RouterPath) {
    RouterPath(seq(|d.relays|, i requires 0 <= i < |d.relays| => HopOf(d.relays[i])), d.control.addr, 0.0, None)
  }

  predicate Apart(a: Node, b: Node) {
    a.id != b.id && a.operator != b.operator
  }

  // The relay chains the three nested loops add, k relays into each loop.
  function Threes(live: seq<Node>, r1: Node, r2: Node, k: nat): (r: seq<seq<Node>>)
    requires k <= |live|
  {
    if k == 0 then []
    else
      var r3 := live[k - 1];
      Threes(live, r1, r2, k - 1) + (if Apart(r3, r1) && Apart(r3, r2) then [[r1, r2, r3]] else [])
  }

  function Twos(live: seq<Node>, r1: Node, k: nat): (r: seq<seq<Node>>)
    requires k <= |live|
  {
    if k == 0 then []
    else
      var r2 := live[k - 1];
      Twos(live, r1, k - 1) + (if Apart(r2, r1) then [[r1, r2]] + Threes(live, r1, r2, |live|) else [])
  }

  function Ones(live: seq<Node>, k: nat): (r: seq<seq<Node>>)
    requires k <= |live|
  {
    if k == 0 then [] else Ones(live, k - 1) + ([[live[k - 1]]] + Twos(live, live[k - 1], |live|))
  }

  // All chains, the empty one (a direct path) first.
  function Chains(live: seq<Node>): (r: seq<seq<Node>>) {
    [[]] + Ones(live, |live|)
  }

  function InFrontOf(c: Node, chains: seq<seq<Node>>): (r: seq<Draft>)
    ensures |r| == |chains|
  {
    seq(|chains|, i requires 0 <= i < |chains| => Draft(c, chains[i]))
  }

  function Candidates(controls: seq<Node>, live: seq<Node>, k: nat): (r: seq<Draft>)
    requires k <= |controls|
  {
    if k == 0 then [] else Candidates(controls, live, k - 1) + InFrontOf(controls[k - 1], Chains(live))
  }

  // What a chain should be: up to three live relays, pairwise of different identity and
  // operator.
  ghost predicate Route(live: seq<Node>, nodes: seq<Node>) {
    && |nodes| <= 3
    && (forall i :: 0 <= i < |nodes| ==> nodes[i] in live)
    && (forall i, j :: 0 <= i < j < |nodes| ==> Apart(nodes[i], nodes[j]))
  }

  lemma {:induction false} ThreesAre(live: seq<Node>, r1: Node, r2: Node, k: nat, ch: seq<Node>)
    requires k <= |live|
    ensures ch in Threes(live, r1, r2, k) <==>
      exists i :: 0 <= i < k && Apart(live[i], r1) && Apart(live[i], r2) && ch == [r1, r2, live[i]]
  {
    if k > 0 {
      ThreesAre(live, r1, r2, k - 1, ch);
      var r3 := live[k - 1];
      InJoin(ch, Threes(live, r1, r2, k - 1), if Apart(r3, r1) && Apart(r3, r2) then [[r1, r2, r3]] else []);
    }
  }

  // The chain was added at position i of the second, of the first loop.
  predicate FromSecond(live: seq<Node>, r1: Node, ch: seq<Node>, i: int) {
    0 <= i < |live| && Apart(live[i], r1) && (ch == [r1, live[i]] || ch in Threes(live, r1, live[i], |live|))
  }

  predicate FromFirst(live: seq<Node>, ch: seq<Node>, i: int) {
    0 <= i < |live| && (ch == [live[i]] || ch in Twos(live, live[i], |live|))
  }

  lemma TwosStep(live: seq<Node>, r1: Node, k: nat, ch: seq<Node>)
    requires 0 < k <= |live|
    ensures ch in Twos(live, r1, k) <==> ch in Twos(live, r1, k - 1) || FromSecond(live, r1, ch, k - 1)
  {
    var two, more := [[r1, live[k - 1]]], Threes(live, r1, live[k - 1], |live|);
    InJoin(ch, two, more);
    InJoin(ch, Twos(live, r1, k - 1), if Apart(live[k - 1], r1) then two + more else []);
  }

  lemma {:induction false} TwosAre(live: seq<Node>, r1: Node, k: nat, ch: seq<Node>)
    requires k <= |live|
    ensures ch in Twos(live, r1, k) <==> exists i :: i < k && FromSecond(live, r1, ch, i)
  {
    if k > 0 {
      TwosAre(live, r1, k - 1, ch);
      TwosStep(live, r1, k, ch);
    }
  }

  lemma OnesStep(live: seq<Node>, k: nat, ch: seq<Node>)
    requires 0 < k <= |live|
    ensures ch in Ones(live, k) <==> ch in Ones(live, k - 1) || FromFirst(live, ch, k - 1)
  {
    var one, more := [[live[k - 1]]], Twos(live, live[k - 1], |live|);
    InJoin(ch, one, more);
    InJoin(ch, Ones(live, k - 1), one + more);
  }

  ghost predicate FromSome(live: seq<Node>, ch: seq<Node>, k: nat)
    requires k <= |live|
  {
    exists i: nat :: i < k && FromFirst(live, ch, i)
  }

  lemma FromSomeStep(live: seq<Node>, ch: seq<Node>, k: nat)
    requires 0 < k <= |live|
    ensures FromSome(live, ch, k) <==> FromSome(live, ch, k - 1) || FromFirst(live, ch, k - 1)
  {
  }

  ghost predicate OnesUpTo(live: seq<Node>, ch: seq<Node>, k: nat) {
    k <= |live| && (ch in Ones(live, k) <==> FromSome(live, ch, k))
  }

  lemma OnesOneMore(live: seq<Node>, ch: seq<Node>, k: nat)
    requires k < |live| && OnesUpTo(live, ch, k)
    ensures OnesUpTo(live, ch, k + 1)
  {
    OnesStep(live, k + 1, ch);
    FromSomeStep(live, ch, k + 1);
  }

  lemma OnesAre(live: seq<Node>, k: nat, ch: seq<Node>)
    requires k <= |live|
    ensures ch in Ones(live, k) <==> FromSome(live, ch, k)
  {
    assert OnesUpTo(live, ch, 0);
    forall i: nat | i < k && OnesUpTo(live, ch, i)
      ensures OnesUpTo(live, ch, i + 1)
    {
      OnesOneMore(live, ch, i);
    }
    Along((i: nat) => OnesUpTo(live, ch, i), 0, k);
  }

  lemma ThirdIsRoute(live: seq<Node>, r1: Node, r2: Node, ch: seq<Node>)
    requires ch in Threes(live, r1, r2, |live|) && r1 in live && r2 in live && Apart(r2, r1)
    ensures Route(live, ch)
  {
    ThreesAre(live, r1, r2, |live|, ch);
  }

  lemma SecondIsRoute(live: seq<Node>, r1: Node, ch: seq<Node>)
    requires ch in Twos(live, r1, |live|) && r1 in live
    ensures Route(live, ch)
  {
    TwosAre(live, r1, |live|, ch);
    var j :| j < |live| && FromSecond(live, r1, ch, j);
    if ch != [r1, live[j]] {
      ThirdIsRoute(live, r1, live[j], ch);
    }
  }

  lemma GeneratedIsRoute(live: seq<Node>, ch: seq<Node>)
    requires ch in Chains(live)
    ensures Route(live, ch)
  {
    InJoin(ch, [[]], Ones(live, |live|));
    if ch != [] {
      OnesAre(live, |live|, ch);
      assert FromSome(live, ch, |live|);
      var i: nat :| i < |live| && FromFirst(live, ch, i);
      if ch != [live[i]] {
        SecondIsRoute(live, live[i], ch);
      }
    }
  }

  lemma LongRouteGenerated(live: seq<Node>, ch: seq<Node>)
    requires Route(live, ch) && |ch| >= 2
    ensures ch in Twos(live, ch[0], |live|)
  {
    assert ch[1] in live;
    var j :| 0 <= j < |live| && live[j] == ch[1];
    assert Apart(ch[1], ch[0]);
    if |ch| == 2 {
      assert ch == [ch[0], ch[1]];
    } else {
      ThreesAre(live, ch[0], ch[1], |live|, ch);
      assert ch == [ch[0], ch[1], ch[2]];
      assert Apart(ch[2], ch[0]) && Apart(ch[2], ch[1]);
    }
    assert FromSecond(live, ch[0], ch, j);
    TwosAre(live, ch[0], |live|, ch);
  }

  lemma RouteIsGenerated(live: seq<Node>, ch: seq<Node>)
    requires Route(live, ch)
    ensures ch in Chains(live)
  {
    InJoin(ch, [[]], Ones(live, |live|));
    if ch != [] {
      var i :| 0 <= i < |live| && live[i] == ch[0];
      if |ch| == 1 {
        assert ch == [ch[0]];
      } else {
        LongRouteGenerated(live, ch);
      }
      assert FromFirst(live, ch, i);
      OnesAre(live, |live|, ch);
    }
  }

  lemma {:induction false} InCandidates(controls: seq<Node>, live: seq<Node>, k: nat, d: Draft)
    requires k <= |controls|
    ensures d in Candidates(controls, live, k) <==>
      d.relays in Chains(live) && exists i :: 0 <= i < k && controls[i] == d.control
  {
    if k > 0 {
      InCandidates(controls, live, k - 1, d);
      var c, chains := controls[k - 1], Chains(live);
      var more := InFrontOf(c, chains);
      InJoin(d, Candidates(controls, live, k - 1), more);
      assert d in more <==> d.control == c && d.relays in chains by {
        if d.control == c && d.relays in chains {
          var i :| 0 <= i < |chains| && chains[i] == d.relays;
          assert more[i] == d;
        }
      }
    }
  }

  // The nested loops produce exactly the routes, for every chosen control.
  lemma CandidatesAreRoutes(controls: seq<Node>, live: seq<Node>, d: Draft)
    ensures d in Candidates(controls, live, |controls|) <==> d.control in controls && Route(live, d.relays)
  {
    InCandidates(controls, live, |controls|, d);
    if d.relays in Chains(live) {
      GeneratedIsRoute(live, d.relays);
    }
    if Route(live, d.relays) {
      RouteIsGenerated(live, d.relays);
    }
  }

  // ---- The best five ----

  // Relay paths first, then the lower score.
  predicate Before(a: RouterPath, b: RouterPath) {
    if (a.relays != []) != (b.relays != []) then a.relays != [] else a.score < b.score
  }

  ghost predicate BestFive(cands: seq<RouterPath>, paths: seq<RouterPath>) {
    exists ranked :: Ranking(cands, ranked, Before) && multiset(paths) == multiset(ranked[..Min(5, |ranked|)])
  }

  function Finished(w: World, controls: seq<Node>, live: seq<Node>, d: Draft): (p: RouterPath) {
    Scored(w, controls, live, Bare(d))
  }

  function ScoredAll(w: World, controls: seq<Node>, live: seq<Node>, ds: seq<Draft>): (r: seq<RouterPath>)
    ensures |r| == |ds|
  {
    seq(|ds|, i requires 0 <= i < |ds| => Finished(w, controls, live, ds[i]))
  }

  // ---- Which controls and relays take part ----

  function IsAlive(w: World): (p: Node -> bool) {
    n => Alive(w, n)
  }

  function IsHome(w: World): (p: Node -> bool) {
    (n: Node) => n.country == w.myCountry
  }

  function IsAbroad(w: World): (p: Node -> bool) {
    (n: Node) => n.country != w.myCountry
  }

  function IsTcp(): (p: Node -> bool) {
    (n: Node) => n.tcp
  }

  function IsNear(w: World): (p: Node -> bool) {
    n => Alive(w, n) && (w.myCountry == "" || n.country == w.myCountry)
  }

  function AliveOf(w: World, nodes: seq<Node>): (r: seq<Node>) {
    Keep(nodes, IsAlive(w))
  }

  predicate HomePolicy(w: World, controls: seq<Node>) {
    w.myCountry != "" && Keep(AliveOf(w, controls), IsHome(w)) != []
  }

  // TCP-capable nodes if there are any, else all of them.
  function TcpFirst(nodes: seq<Node>): (r: seq<Node>) {
    if Keep(nodes, IsTcp()) != [] then Keep(nodes, IsTcp()) else nodes
  }

  // The controls left by the country and TCP filters, before any supplement.
  function Preferred(w: World, controls: seq<Node>): (r: seq<Node>) {
    TcpFirst(if HomePolicy(w, controls) then Keep(AliveOf(w, controls), IsHome(w)) else AliveOf(w, controls))
  }

  // The out-of-country controls that may supplement them.
  function Spare(w: World, controls: seq<Node>): (r: seq<Node>) {
    if HomePolicy(w, controls) then Keep(Keep(AliveOf(w, controls), IsAbroad(w)), IsTcp()) else []
  }

  // r is s ordered by node score.
  ghost predicate ByScore(w: World, s: seq<Node>, r: seq<Node>) {
    multiset(r) == multiset(s) && forall i, j :: 0 <= i < j < |r| ==> NodeScore(w, r[i]) <= NodeScore(w, r[j])
  }

  // How many controls the supplement adds.
  function Missing(have: nat, spare: nat): (n: nat)
    ensures n <= spare
  {
    if have == 0 || have >= 3 then 0 else Min(3 - have, spare)
  }

  ghost predicate Chosen(w: World, controls: seq<Node>, chosen: seq<Node>) {
    exists ranked :: Supplemented(w, Preferred(w, controls), Spare(w, controls), ranked, chosen)
  }

  ghost predicate Supplemented(w: World, preferred: seq<Node>, spare: seq<Node>, ranked: seq<Node>, chosen: seq<Node>) {
    && ByScore(w, spare, ranked) && |ranked| == |spare|
    && chosen == preferred + ranked[..Missing(|preferred|, |spare|)]
  }

  function RelayPool(w: World, relays: seq<Node>): (r: seq<Node>) {
    var near := Keep(relays, IsNear(w));
    if w.myCountry != "" && near == [] then AliveOf(w, relays) else near
  }

  ghost predicate LiveRelays(w: World, relays: seq<Node>, live: seq<Node>) {
    exists ranked :: ByScore(w, RelayPool(w, relays), ranked) && live == ranked[..Min(20, |ranked|)]
  }

  // The stored list, given the chosen controls and the live relays.
  ghost predicate Stored(w: World, chosen: seq<Node>, live: seq<Node>, paths: seq<RouterPath>) {
    BestFive(ScoredAll(w, chosen, live, Candidates(chosen, live, |chosen|)), paths)
  }

  ghost predicate BuiltFrom(
    w: World, controls: seq<Node>, relays: seq<Node>, chosen: seq<Node>, live: seq<Node>, paths: seq<RouterPath>)
  {
    Chosen(w, controls, chosen) && LiveRelays(w, relays, live) && Stored(w, chosen, live, paths)
  }

  // What BuildPaths stores.
  ghost predicate Built(w: World, controls: seq<Node>, relays: seq<Node>, paths: seq<RouterPath>) {
    exists chosen, live :: BuiltFrom(w, controls, relays, chosen, live, paths)
  }
}
