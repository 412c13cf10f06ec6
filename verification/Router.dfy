// router.go: the Router object, and what its stored paths guarantee.
module Router {
  import opened Common
  import opened Sorting
  import opened RoutePlan

  // ---- Laws of the stored paths ----

  lemma BeforeIsStrictWeak()
    ensures StrictWeak(Before)
  {
  }

  function Cheaper(w: World): (less: (Node, Node) -> bool) {
    (a, b) => NodeScore(w, a) < NodeScore(w, b)
  }

  lemma CheaperIsStrictWeak(w: World)
    ensures StrictWeak(Cheaper(w))
  {
  }

  // The kept paths are five (or all) of the candidates, and nothing omitted ranks before
  // anything kept.
  lemma KeptAreBest(cands: seq<RouterPath>, paths: seq<RouterPath>, p: RouterPath, q: RouterPath)
    requires BestFive(cands, paths) && p in paths && q in cands
    ensures |paths| == Min(5, |cands|) && p in cands
    ensures multiset(paths) <= multiset(cands)
    ensures Before(q, p) ==> q in paths
  {
    var ranked :| Ranking(cands, ranked, Before) && multiset(paths) == multiset(ranked[..Min(5, |ranked|)]);
    var cut := Min(5, |ranked|);
    SameElements(cands, ranked);
    SameElements(ranked[..cut], paths);
    assert ranked == ranked[..cut] + ranked[cut..];
    if Before(q, p) {
      var i :| 0 <= i < cut && ranked[i] == p;
      var j :| 0 <= j < |ranked| && ranked[j] == q;
      assert !(i < j);
      assert ranked[..cut][j] == q;
    }
  }

  lemma EmptyBest(cands: seq<RouterPath>, paths: seq<RouterPath>)
    requires BestFive(cands, paths)
    ensures |paths| == Min(5, |cands|)
  {
    var ranked :| Ranking(cands, ranked, Before) && multiset(paths) == multiset(ranked[..Min(5, |ranked|)]);
    SameElements(cands, ranked);
    SameElements(ranked[..Min(5, |ranked|)], paths);
  }

  // q should be stored rather than p: it goes through relays and p is direct, or they are of one
  // kind and q scores lower.
  predicate Preferable(q: RouterPath, p: RouterPath) {
    (q.relays != [] && p.relays == []) || ((q.relays == []) == (p.relays == []) && q.score < p.score)
  }

  // Five or all of the candidates, none of those left out preferable to one kept.
  ghost predicate NoneBetter(cands: seq<RouterPath>, paths: seq<RouterPath>) {
    && |paths| == Min(5, |cands|) && multiset(paths) <= multiset(cands)
    && (forall p, q :: p in paths && q in cands && q !in paths ==> !Preferable(q, p))
  }

  lemma KeptUnlessWorse(cands: seq<RouterPath>, paths: seq<RouterPath>, p: RouterPath, q: RouterPath)
    requires BestFive(cands, paths) && p in paths && q in cands && q !in paths
    ensures |paths| == 5 && !Preferable(q, p)
  {
    KeptAreBest(cands, paths, p, q);
    if |cands| <= 5 {
      AllKept(cands, paths, q);
    }
  }

  lemma BestIsNoneBetter(cands: seq<RouterPath>, paths: seq<RouterPath>)
    requires BestFive(cands, paths)
    ensures NoneBetter(cands, paths)
  {
    EmptyBest(cands, paths);
    forall p, q | p in paths && q in cands && q !in paths
      ensures !Preferable(q, p)
    {
      KeptUnlessWorse(cands, paths, p, q);
    }
    if paths != [] {
      KeptAreBest(cands, paths, paths[0], cands[0]);
    }
  }

  lemma AllKept(cands: seq<RouterPath>, paths: seq<RouterPath>, q: RouterPath)
    requires BestFive(cands, paths) && |cands| <= 5 && q in cands
    ensures q in paths
  {
    var ranked :| Ranking(cands, ranked, Before) && multiset(paths) == multiset(ranked[..Min(5, |ranked|)]);
    SameElements(cands, ranked);
    assert ranked[..|ranked|] == ranked;
    SameElements(ranked, paths);
  }

  lemma {:induction false} HopsCostOfPrefix(w: World, live: seq<Node>, relays: seq<Hop>, n: nat, k: nat)
    requires k <= n <= |relays|
    ensures HopsCost(w, live, relays[..n], k) == HopsCost(w, live, relays, k)
  {
    if k > 0 {
      HopsCostOfPrefix(w, live, relays, n, k - 1);
    }
  }

  // Dropping the last relay of a multi-hop path always lowers its score.
  lemma ShorterIsCheaper(w: World, chosen: seq<Node>, live: seq<Node>, p: RouterPath, q: RouterPath)
    requires |p.relays| >= 2 && q.relays == p.relays[..|p.relays| - 1] && q.control == p.control
    ensures Before(Scored(w, chosen, live, q), Scored(w, chosen, live, p))
  {
    var n := |q.relays|;
    HopsCostOfPrefix(w, live, p.relays, n, n);
  }

  lemma ScoredMember(w: World, chosen: seq<Node>, live: seq<Node>, ds: seq<Draft>, d: Draft)
    requires d in ds
    ensures Finished(w, chosen, live, d) in ScoredAll(w, chosen, live, ds)
  {
    var i :| 0 <= i < |ds| && ds[i] == d;
    assert ScoredAll(w, chosen, live, ds)[i] == Finished(w, chosen, live, d);
  }

  lemma MemberScored(w: World, chosen: seq<Node>, live: seq<Node>, ds: seq<Draft>, p: RouterPath) returns (d: Draft)
    requires p in ScoredAll(w, chosen, live, ds)
    ensures d in ds && p == Finished(w, chosen, live, d)
  {
    var all := ScoredAll(w, chosen, live, ds);
    var i :| 0 <= i < |all| && all[i] == p;
    d := ds[i];
  }

  // Every stored path is a scored route: a chosen control behind at most three live relays
  // that differ pairwise in identity and operator.
  lemma StoredPathIsRoute(
    w: World, chosen: seq<Node>, live: seq<Node>, paths: seq<RouterPath>, p: RouterPath) returns (d: Draft)
    requires Stored(w, chosen, live, paths) && p in paths
    ensures d.control in chosen && Route(live, d.relays) && p == Finished(w, chosen, live, d)
  {
    var drafts := Candidates(chosen, live, |chosen|);
    var cands := ScoredAll(w, chosen, live, drafts);
    EmptyBest(cands, paths);
    KeptAreBest(cands, paths, p, cands[0]);
    d := MemberScored(w, chosen, live, drafts, p);
    CandidatesAreRoutes(chosen, live, d);
  }

  ghost predicate HasPath(paths: seq<RouterPath>, control: string, relays: seq<Hop>) {
    exists q :: q in paths && q.control == control && q.relays == relays
  }

  // A route that ranks before a stored path is stored.
  lemma BetterRouteKept(w: World, chosen: seq<Node>, live: seq<Node>, paths: seq<RouterPath>, p: RouterPath, d: Draft)
    requires Stored(w, chosen, live, paths) && p in paths && d.control in chosen && Route(live, d.relays)
    requires Before(Finished(w, chosen, live, d), p)
    ensures Finished(w, chosen, live, d) in paths
  {
    var drafts := Candidates(chosen, live, |chosen|);
    CandidatesAreRoutes(chosen, live, d);
    ScoredMember(w, chosen, live, drafts, d);
    KeptAreBest(ScoredAll(w, chosen, live, drafts), paths, p, Finished(w, chosen, live, d));
  }

  lemma ShorterRoute(live: seq<Node>, d: Draft)
    requires Route(live, d.relays) && d.relays != []
    ensures var n := |d.relays| - 1;
      Route(live, d.relays[..n]) && Bare(Draft(d.control, d.relays[..n])).relays == Bare(d).relays[..n]
  {
  }

  lemma ClosedFrom(w: World, chosen: seq<Node>, live: seq<Node>, paths: seq<RouterPath>, p: RouterPath)
    requires Stored(w, chosen, live, paths) && p in paths && |p.relays| >= 2
    ensures HasPath(paths, p.control, p.relays[..|p.relays| - 1])
  {
    var d := StoredPathIsRoute(w, chosen, live, paths, p);
    var shorter := Draft(d.control, d.relays[..|d.relays| - 1]);
    ShorterRoute(live, d);
    ShorterIsCheaper(w, chosen, live, Bare(d), Bare(shorter));
    BetterRouteKept(w, chosen, live, paths, p, shorter);
  }

  // The stored list is closed under dropping the last relay of a multi-hop path.
  lemma ClosedUnderDropLast(w: World, controls: seq<Node>, relays: seq<Node>, paths: seq<RouterPath>, p: RouterPath)
    requires Built(w, controls, relays, paths) && p in paths && |p.relays| >= 2
    ensures HasPath(paths, p.control, p.relays[..|p.relays| - 1])
  {
    var chosen, live :| BuiltFrom(w, controls, relays, chosen, live, paths);
    ClosedFrom(w, chosen, live, paths, p);
  }

  lemma {:induction false} ShortFrom(
    w: World, chosen: seq<Node>, live: seq<Node>, paths: seq<RouterPath>, p: RouterPath)
    requires Stored(w, chosen, live, paths) && p in paths
    ensures HasPath(paths, p.control, p.relays[..Min(1, |p.relays|)])
    decreases |p.relays|
  {
    if |p.relays| >= 2 {
      ClosedFrom(w, chosen, live, paths, p);
      var q :| q in paths && q.control == p.control && q.relays == p.relays[..|p.relays| - 1];
      ShortFrom(w, chosen, live, paths, q);
      assert q.relays[..1] == p.relays[..1];
    } else {
      assert p.relays[..|p.relays|] == p.relays;
    }
  }

  // So with every stored path, the path through its first relay alone (or the direct path) is
  // stored too: one that can be executed today.
  lemma ShortPathKept(w: World, controls: seq<Node>, relays: seq<Node>, paths: seq<RouterPath>, p: RouterPath)
    requires Built(w, controls, relays, paths) && p in paths
    ensures HasPath(paths, p.control, p.relays[..Min(1, |p.relays|)])
  {
    var chosen, live :| BuiltFrom(w, controls, relays, chosen, live, paths);
    ShortFrom(w, chosen, live, paths, p);
  }

  ghost predicate RelaysApart(relays: seq<Node>, p: RouterPath) {
    exists nodes :: ThroughNodes(relays, p, nodes)
  }

  ghost predicate ThroughNodes(relays: seq<Node>, p: RouterPath, nodes: seq<Node>) {
    && |nodes| == |p.relays| <= 3
    && (forall i :: 0 <= i < |nodes| ==> nodes[i] in relays && p.relays[i] == HopOf(nodes[i]))
    && (forall i, j :: 0 <= i < j < |nodes| ==> nodes[i].id != nodes[j].id && nodes[i].operator != nodes[j].operator)
  }

  lemma LiveAreAlive(w: World, relays: seq<Node>, live: seq<Node>, n: Node)
    requires LiveRelays(w, relays, live) && n in live
    ensures n in relays && Alive(w, n)
  {
    var ranked :| ByScore(w, RelayPool(w, relays), ranked) && live == ranked[..Min(20, |ranked|)];
    SameElements(RelayPool(w, relays), ranked);
    assert n in ranked;
  }

  // Relays within a stored path are known, alive, and pairwise distinct in identity and
  // operator.
  lemma RelaysWithinPathDiffer(w: World, controls: seq<Node>, relays: seq<Node>, paths: seq<RouterPath>, p: RouterPath)
    requires Built(w, controls, relays, paths) && p in paths
    ensures RelaysApart(AliveOf(w, relays), p)
  {
    var chosen, live :| BuiltFrom(w, controls, relays, chosen, live, paths);
    var d := StoredPathIsRoute(w, chosen, live, paths, p);
    RouteThroughAlive(w, relays, live, d.relays);
    RouteNodes(w, chosen, live, AliveOf(w, relays), p, d);
  }

  lemma RouteNodes(w: World, chosen: seq<Node>, live: seq<Node>, known: seq<Node>, p: RouterPath, d: Draft)
    requires Route(live, d.relays) && p == Finished(w, chosen, live, d)
    requires forall i :: 0 <= i < |d.relays| ==> d.relays[i] in known
    ensures ThroughNodes(known, p, d.relays)
  {
    var nodes := d.relays;
    forall i, j | 0 <= i < j < |nodes|
      ensures nodes[i].id != nodes[j].id && nodes[i].operator != nodes[j].operator
    {
      assert Apart(nodes[i], nodes[j]);
    }
  }

  lemma RouteThroughAlive(w: World, relays: seq<Node>, live: seq<Node>, nodes: seq<Node>)
    requires LiveRelays(w, relays, live) && Route(live, nodes)
    ensures forall i :: 0 <= i < |nodes| ==> nodes[i] in AliveOf(w, relays)
  {
    forall i | 0 <= i < |nodes|
      ensures nodes[i] in AliveOf(w, relays)
    {
      LiveAreAlive(w, relays, live, nodes[i]);
    }
  }

  // ---- Control selection ----

  lemma ChosenOrigin(w: World, controls: seq<Node>, chosen: seq<Node>, c: Node)
    requires Chosen(w, controls, chosen) && c in chosen
    ensures c in controls && Alive(w, c)
    ensures c in Preferred(w, controls) || (c in Spare(w, controls) && 0 < |Preferred(w, controls)| < 3)
  {
    var preferred, spare := Preferred(w, controls), Spare(w, controls);
    var ranked :| Supplemented(w, preferred, spare, ranked, chosen);
    SameElements(spare, ranked);
    if c !in preferred {
      assert c in ranked[..Missing(|preferred|, |spare|)];
    }
  }

  lemma PreferredExists(w: World, controls: seq<Node>)
    ensures Preferred(w, controls) != [] <==> exists c :: c in controls && Alive(w, c)
  {
    var alive := AliveOf(w, controls);
    if alive != [] {
      assert alive[0] in alive;
      assert alive[0] in controls && Alive(w, alive[0]);
    }
    if c :| c in controls && Alive(w, c) {
      assert c in alive;
    }
  }

  // Paths are available exactly when some control is alive.
  lemma PathsExistIffControlAlive(w: World, controls: seq<Node>, relays: seq<Node>, paths: seq<RouterPath>)
    requires Built(w, controls, relays, paths)
    ensures paths != [] <==> exists c :: c in controls && Alive(w, c)
  {
    var chosen, live :| BuiltFrom(w, controls, relays, chosen, live, paths);
    EmptyBest(ScoredAll(w, chosen, live, Candidates(chosen, live, |chosen|)), paths);
    PreferredExists(w, controls);
    if chosen != [] {
      CandidatesAreRoutes(chosen, live, Draft(chosen[0], []));
      ChosenOrigin(w, controls, chosen, chosen[0]);
    }
  }

  ghost predicate HomeAlive(w: World, controls: seq<Node>) {
    w.myCountry != "" && exists c :: c in controls && Alive(w, c) && c.country == w.myCountry
  }

  // Behind every stored path stands an alive control.
  ghost predicate Backs(w: World, controls: seq<Node>, chosen: seq<Node>, p: RouterPath, c: Node) {
    Chosen(w, controls, chosen) && c in chosen && c.addr == p.control && c in controls && Alive(w, c)
  }

  // While an in-country control is alive, that control is out of country only if fewer than
  // three in-country ones survive the TCP filter, and then it is a TCP one, it is one of at
  // most three, and every TCP out-of-country control left out scores no lower.
  lemma OutOfCountryOnlyAsSupplement(
    w: World, controls: seq<Node>, relays: seq<Node>, paths: seq<RouterPath>, p: RouterPath)
    returns (c: Node, chosen: seq<Node>)
    requires Built(w, controls, relays, paths) && p in paths
    ensures Backs(w, controls, chosen, p, c)
    ensures HomeAlive(w, controls) && c.country != w.myCountry ==>
      && |TcpFirst(Keep(AliveOf(w, controls), IsHome(w)))| < 3 && |chosen| <= 3 && c.tcp
      && (forall n :: n in controls && Alive(w, n) && n.country != w.myCountry && n.tcp && n !in chosen ==>
        NodeScore(w, c) <= NodeScore(w, n))
  {
    var live;
    chosen, live :| BuiltFrom(w, controls, relays, chosen, live, paths);
    var d := StoredPathIsRoute(w, chosen, live, paths, p);
    c := d.control;
    ChosenOrigin(w, controls, chosen, c);
    if HomeAlive(w, controls) && c.country != w.myCountry {
      AbroadIsSupplement(w, controls, chosen, c);
    }
  }

  lemma AbroadIsSupplement(w: World, controls: seq<Node>, chosen: seq<Node>, c: Node)
    requires Chosen(w, controls, chosen) && c in chosen && HomeAlive(w, controls) && c.country != w.myCountry
    ensures |TcpFirst(Keep(AliveOf(w, controls), IsHome(w)))| < 3 && |chosen| <= 3 && c.tcp
    ensures forall n :: n in controls && Alive(w, n) && n.country != w.myCountry && n.tcp && n !in chosen ==>
        NodeScore(w, c) <= NodeScore(w, n)
  {
    HomeComesFirst(w, controls, c);
    var preferred, spare := Preferred(w, controls), Spare(w, controls);
    var ranked :| Supplemented(w, preferred, spare, ranked, chosen);
    SupplementIsCheapest(w, preferred, spare, ranked, chosen, c);
    forall n | n in controls && Alive(w, n) && n.country != w.myCountry && n.tcp && n !in chosen
      ensures NodeScore(w, c) <= NodeScore(w, n)
    {
      HomeComesFirst(w, controls, n);
    }
  }

  // With an in-country control alive, only in-country ones are preferred and the spare ones
  // are exactly the alive TCP controls abroad.
  lemma HomeComesFirst(w: World, controls: seq<Node>, n: Node)
    requires HomeAlive(w, controls)
    ensures Preferred(w, controls) == TcpFirst(Keep(AliveOf(w, controls), IsHome(w)))
    ensures n in Preferred(w, controls) ==> n.country == w.myCountry
    ensures n in Spare(w, controls) <==> n in controls && Alive(w, n) && n.country != w.myCountry && n.tcp
  {
    HomePolicyApplies(w, controls);
    TcpFirstOf(Keep(AliveOf(w, controls), IsHome(w)), n);
  }

  lemma HomePolicyApplies(w: World, controls: seq<Node>)
    requires HomeAlive(w, controls)
    ensures HomePolicy(w, controls)
  {
    var h :| h in controls && Alive(w, h) && h.country == w.myCountry;
    assert h in AliveOf(w, controls);
    assert h in Keep(AliveOf(w, controls), IsHome(w));
  }

  lemma TcpFirstOf(nodes: seq<Node>, n: Node)
    ensures n in TcpFirst(nodes) ==> n in nodes
  {
  }

  lemma SupplementIsCheapest(
    w: World, preferred: seq<Node>, spare: seq<Node>, ranked: seq<Node>, chosen: seq<Node>, c: Node)
    requires Supplemented(w, preferred, spare, ranked, chosen) && c in chosen && c !in preferred
    ensures |preferred| < 3 && |chosen| <= 3 && c in spare
    ensures forall n :: n in spare && n !in chosen ==> NodeScore(w, c) <= NodeScore(w, n)
  {
    var k := Missing(|preferred|, |spare|);
    SameElements(spare, ranked);
    var i :| 0 <= i < k && ranked[..k][i] == c;
    forall n | n in spare && n !in chosen
      ensures NodeScore(w, c) <= NodeScore(w, n)
    {
      var j :| 0 <= j < |ranked| && ranked[j] == n;
      assert k <= j by {
        assert n !in ranked[..k];
      }
    }
  }

  // ---- The cursor ----

  datatype Cursor = Cursor(paths: seq<RouterPath>, idx: nat)

  datatype Op = Build(paths: seq<RouterPath>) | Next | Restart

  predicate CursorValid(c: Cursor) {
    c.paths == [] || c.idx < |c.paths|
  }

  // No paths leaves the index as it was; otherwise a rebuild starts again at the first path.
  function Rebuilt(c: Cursor, paths: seq<RouterPath>): (r: Cursor) {
    if paths == [] then Cursor([], c.idx) else Cursor(paths, 0)
  }

  function Advanced(c: Cursor): (r: (Cursor, bool)) {
    if c.idx + 1 < |c.paths| then (Cursor(c.paths, c.idx + 1), true) else (Cursor(c.paths, 0), false)
  }

  function Did(c: Cursor, op: Op): (r: Cursor) {
    match op
    case Build(paths) => Rebuilt(c, paths)
    case Next => Advanced(c).0
    case Restart => Cursor(c.paths, 0)
  }

  function DidAll(c: Cursor, ops: seq<Op>): (r: Cursor) {
    if ops == [] then c else Did(DidAll(c, ops[..|ops| - 1]), ops[|ops| - 1])
  }

  lemma {:induction false} CursorAlwaysValid(ops: seq<Op>)
    ensures CursorValid(DidAll(Cursor([], 0), ops))
  {
    if ops != [] {
      CursorAlwaysValid(ops[..|ops| - 1]);
    }
  }

  function AdvancedTimes(c: Cursor, k: nat): (r: Cursor) {
    if k == 0 then c else Advanced(AdvancedTimes(c, k - 1)).0
  }

  // From the first path, Advance visits every path once, in order, and only then wraps.
  lemma {:induction false} AdvanceVisitsEachOnce(c: Cursor, k: nat)
    requires c.idx == 0 && c.paths != [] && k <= |c.paths|
    ensures AdvancedTimes(c, k) == Cursor(c.paths, if k < |c.paths| then k else 0)
    ensures k > 0 ==> (Advanced(AdvancedTimes(c, k - 1)).1 <==> k < |c.paths|)
  {
    if k > 0 {
      AdvanceVisitsEachOnce(c, k - 1);
    }
  }

  class Router {
    var relays: seq<Node>
    var controls: seq<Node>
    var paths: seq<RouterPath>
    var pathIdx: nat

    function State(): (c: Cursor)
      reads this
    {
      Cursor(paths, pathIdx)
    }

    constructor ()
      ensures relays == [] && controls == [] && State() == Cursor([], 0)
    {
      relays, controls, paths, pathIdx := [], [], [], 0;
    }

    // The country and TCP filters.
    method FilterControls(w: World) returns (chosen: seq<Node>, spare: seq<Node>)
      ensures chosen == Preferred(w, controls) && spare == Spare(w, controls)
    {
      chosen := Filter(controls, IsAlive(w));
      var abroad: seq<Node> := [];
      if w.myCountry != "" {
        var home := Filter(chosen, IsHome(w));
        var away := Filter(chosen, IsAbroad(w));
        if |home| > 0 {
          chosen, abroad := home, away;
        }
      }
      var tcp := Filter(chosen, IsTcp());
      if |tcp| > 0 {
        chosen := tcp;
      }
      spare := Filter(abroad, IsTcp());
    }

    method SelectControls(w: World) returns (chosen: seq<Node>)
      ensures Chosen(w, controls, chosen)
    {
      var preferred, spare := FilterControls(w);
      CheaperIsStrictWeak(w);
      var ranked := SortBy(spare, Cheaper(w));
      SameElements(spare, ranked);
      var need := 0;
      if 0 < |preferred| < 3 && |spare| > 0 {
        need := 3 - |preferred|;
        if need > |spare| {
          need := |spare|;
        }
      }
      chosen := preferred + ranked[..need];
      assert Supplemented(w, preferred, spare, ranked, chosen);
    }

    method SelectRelays(w: World) returns (live: seq<Node>)
      ensures LiveRelays(w, relays, live)
    {
      live := Filter(relays, IsNear(w));
      if w.myCountry != "" && |live| == 0 {
        live := Filter(relays, IsAlive(w));
      }
      CheaperIsStrictWeak(w);
      var ranked := SortBy(live, Cheaper(w));
      assert ByScore(w, RelayPool(w, relays), ranked);
      live := ranked[..Min(20, |ranked|)];
    }

    // The nested loops that generate the relay chains of one control.
    method GenerateChains(live: seq<Node>) returns (out: seq<seq<Node>>)
      ensures out == Chains(live)
    {
      out := [[]];
      for i := 0 to |live|
        invariant out == [[]] + Ones(live, i)
      {
        var more := ChainsFrom(live, live[i]);
        Regroup([[]], Ones(live, i), more);
        out := out + more;
      }
    }

    method ChainsFrom(live: seq<Node>, r1: Node) returns (out: seq<seq<Node>>)
      ensures out == [[r1]] + Twos(live, r1, |live|)
    {
      out := [[r1]];
      for j := 0 to |live|
        invariant out == [[r1]] + Twos(live, r1, j)
      {
        var r2 := live[j];
        if r2.id == r1.id || r2.operator == r1.operator {
          assert Twos(live, r1, j + 1) == Twos(live, r1, j);
          continue;
        }
        var more := ChainsFromTwo(live, r1, r2);
        Regroup([[r1]], Twos(live, r1, j), more);
        out := out + more;
      }
    }

    method ChainsFromTwo(live: seq<Node>, r1: Node, r2: Node) returns (out: seq<seq<Node>>)
      ensures out == [[r1, r2]] + Threes(live, r1, r2, |live|)
    {
      out := [[r1, r2]];
      for k := 0 to |live|
        invariant out == [[r1, r2]] + Threes(live, r1, r2, k)
      {
        var r3 := live[k];
        if r3.id == r1.id || r3.id == r2.id {
          assert Threes(live, r1, r2, k + 1) == Threes(live, r1, r2, k);
          continue;
        }
        if r3.operator == r1.operator || r3.operator == r2.operator {
          assert Threes(live, r1, r2, k + 1) == Threes(live, r1, r2, k);
          continue;
        }
        Regroup([[r1, r2]], Threes(live, r1, r2, k), [[r1, r2, r3]]);
        out := out + [[r1, r2, r3]];
      }
    }

    method FindNodeByAddr(nodes: seq<Node>, addr: string) returns (r: Option<Node>)
      ensures r == FindAddr(nodes, addr)
    {
      for i := 0 to |nodes|
        invariant FindAddr(nodes, addr) == FindAddr(nodes[i..], addr)
      {
        if nodes[i].addr == addr {
          return Some(nodes[i]);
        }
      }
      r := None;
    }

    method FindNodeById(nodes: seq<Node>, id: string) returns (r: Option<Node>)
      ensures r == FindId(nodes, id)
    {
      for i := 0 to |nodes|
        invariant FindId(nodes, id) == FindId(nodes[i..], id)
      {
        if nodes[i].id == id {
          return Some(nodes[i]);
        }
      }
      r := None;
    }

    method ScorePath(w: World, p: RouterPath, chosen: seq<Node>, live: seq<Node>) returns (r: RouterPath)
      ensures r == Scored(w, chosen, live, p)
    {
      var ctrl := FindNodeByAddr(chosen, p.control);
      var s, udp := 0.0, p.udp;
      if ctrl.Some? {
        s := NodeCost(w, ctrl.value);
      }
      ghost var base := s;
      for i := 0 to |p.relays|
        invariant s == base + HopsCost(w, live, p.relays, i)
        invariant udp == if i == 0 then p.udp else UdpPeer(w, p.relays[0])
      {
        var hop := p.relays[i];
        var node := FindNodeById(live, hop.id);
        if node.Some? {
          s := s + NodeCost(w, node.value);
        }
        s := s + 10.0;
        if i == 0 {
          udp := UdpPeer(w, hop);
          if udp.Some? {
            s := s - 30.0;
          }
        }
      }
      r := RouterPath(p.relays, p.control, s, udp);
    }

    method GenerateAll(chosen: seq<Node>, live: seq<Node>) returns (candidates: seq<Draft>)
      ensures candidates == Candidates(chosen, live, |chosen|)
    {
      candidates := [];
      for i := 0 to |chosen|
        invariant candidates == Candidates(chosen, live, i)
      {
        var chains := GenerateChains(live);
        candidates := candidates + InFrontOf(chosen[i], chains);
      }
    }

    method ScoreAll(
      w: World, chosen: seq<Node>, live: seq<Node>, candidates: seq<Draft>) returns (scored: seq<RouterPath>)
      ensures scored == ScoredAll(w, chosen, live, candidates)
    {
      scored := [];
      for i := 0 to |candidates|
        invariant |scored| == i
        invariant forall j :: 0 <= j < i ==> scored[j] == Finished(w, chosen, live, candidates[j])
      {
        var p := ScorePath(w, Bare(candidates[i]), chosen, live);
        scored := scored + [p];
      }
    }

    method PickFive(scored: seq<RouterPath>) returns (top: seq<RouterPath>)
      ensures BestFive(scored, top)
      ensures NoneBetter(scored, top)
    {
      BeforeIsStrictWeak();
      var ranked := SortBy(scored, Before);
      top := ranked[..Min(5, |ranked|)];
      top := Shuffle(top);
      assert BestFive(scored, top);
      BestIsNoneBetter(scored, top);
    }

    method PathsOver(w: World, chosen: seq<Node>, live: seq<Node>) returns (top: seq<RouterPath>)
      ensures Stored(w, chosen, live, top)
    {
      var candidates := GenerateAll(chosen, live);
      var scored := ScoreAll(w, chosen, live, candidates);
      top := PickFive(scored);
    }

    method ChoosePaths(w: World) returns (top: seq<RouterPath>)
      ensures Built(w, controls, relays, top)
    {
      var chosen := SelectControls(w);
      var live := SelectRelays(w);
      top := PathsOver(w, chosen, live);
      assert BuiltFrom(w, controls, relays, chosen, live, top);
    }

    method StorePaths(top: seq<RouterPath>)
      modifies `paths, `pathIdx
      ensures paths == top && State() == Rebuilt(old(State()), top)
    {
      if |top| == 0 {
        paths := [];
      } else {
        paths := top;
        pathIdx := 0;
      }
    }

    method BuildPaths(w: World)
      modifies `paths, `pathIdx
      ensures Built(w, controls, relays, paths)
      ensures State() == Rebuilt(old(State()), paths)
    {
      var top := ChoosePaths(w);
      StorePaths(top);
    }

    method Primary() returns (p: Option<RouterPath>)
      requires CursorValid(State())
      ensures p == if paths == [] then None else Some(paths[pathIdx])
    {
      if |paths| == 0 {
        return None;
      }
      p := Some(paths[pathIdx]);
    }

    method Advance() returns (more: bool)
      modifies `pathIdx
      ensures (State(), more) == Advanced(old(State()))
    {
      if pathIdx + 1 < |paths| {
        pathIdx := pathIdx + 1;
        return true;
      }
      pathIdx := 0;
      more := false;
    }

    method Reset()
      modifies `pathIdx
      ensures State() == Did(old(State()), Restart)
    {
      pathIdx := 0;
    }
  }
}
