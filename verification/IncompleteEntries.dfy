/** Programs on which queries leave incomplete entries: one for each way in which the
    order can be broken, and one for the search forwards. */
module IncompleteEntries {
  import opened TwoPhase
  import opened SearchOrder
  import opened ObjTypeInference

  // ---------- small facts about small graphs ----------

  /** A walk that may not leave `xs` except through blocked values stays there. */
  lemma {:induction false} StaysIn(g: Graph<ValueId>, blocked: set<Node>, xs: set<Node>, path: seq<Node>, k: nat)
    requires IsPath(g, blocked, path) && path[0] in xs && k < |path|
    requires forall n, w | n in xs && n in g.succ && w in g.succ[n] && w !in blocked :: w in xs
    ensures path[k] in xs
  {
    if k > 0 {
      StaysIn(g, blocked, xs, path, k - 1);
      assert path[k - 1 + 1] in g.succ[path[k - 1]];
    }
  }

  lemma NotShown(g: Graph<ValueId>, v: Node, n: Node, s: ValueId, xs: set<Node>)
    requires n in xs && forall m, w | m in xs && m in g.succ && w in g.succ[m] && w != v :: w in xs
    requires forall m | m in xs && m in g.own && m != v :: s !in g.own[m]
    ensures !ShowsWithout(g, v, n, s)
  {
    forall x | x in g.own && Reaches(g, {v}, n, x) ensures s !in g.own[x] {
      var path :| IsPath(g, {v}, path) && path[0] == n && path[|path| - 1] == x;
      StaysIn(g, {v}, xs, path, |path| - 1);
    }
  }

  lemma Step(g: Graph<ValueId>, u: Node, v: Node)
    requires u in g.succ && v in g.succ && v in g.succ[u]
    ensures Reaches(g, {}, u, v)
  {
    assert IsPath(g, {}, [u, v]);
    assert [u, v][0] == u && [u, v][|[u, v]| - 1] == v;
  }

  lemma OwnSite(g: Graph<ValueId>, n: Node, s: ValueId)
    requires g.WellFormed() && n in g.succ && s in g.own[n]
    ensures s in Sites(g, n)
  {
    ReachesSelf(g, {}, n);
  }

  lemma SiteNextTo(g: Graph<ValueId>, n: Node, w: Node, s: ValueId)
    requires g.WellFormed() && n in g.succ && w in g.succ[n] && s in g.own[w]
    ensures s in Sites(g, n)
  {
    Step(g, n, w);
  }

  lemma AllocGraphIs(p: Program, g: Graph<ValueId>)
    requires g.succ.Keys == p.defs.Keys && g.own.Keys == p.defs.Keys
    requires forall v | v in p.defs :: Backwards(p, v) == g.succ[v] && g.own[v] == if v in p.objects then {v} else {}
    ensures AllocGraph(p) == g
  {
    hide Backwards;
    assert AllocGraph(p).succ == g.succ;
  }

  lemma InferGraphIs(p: Program, g: Graph<ValueId>)
    requires g.succ.Keys == p.defs.Keys && g.own.Keys == p.defs.Keys
    requires forall v | v in p.defs :: Forwards(p, v) == g.succ[v] && InferSites(p, v) == g.own[v]
    ensures InferGraph(p) == g
  {
    hide Forwards, InferSites;
    assert InferGraph(p).succ == g.succ;
  }

  lemma GraphsMakeWellFormed(p: Program)
    requires AllocGraph(p).WellFormed() && InferGraph(p).WellFormed()
    ensures WellFormed(p)
  {
    hide Backwards, Forwards, InferSites;
    forall v | v in p.defs
      ensures forall k | 0 <= k < |Backwards(p, v)| :: Backwards(p, v)[k] in p.defs
      ensures forall k | 0 <= k < |Forwards(p, v)| :: Forwards(p, v)[k] in p.defs
    {
      assert AllocGraph(p).succ[v] == Backwards(p, v) && InferGraph(p).succ[v] == Forwards(p, v);
    }
  }

  lemma UnusedWellFormed(p: Program)
    requires AllocGraph(p).WellFormed() && p.users == map[]
    ensures WellFormed(p)
  {
    forall v ensures Forwards(p, v) == [] {}
    GraphsMakeWellFormed(p);
  }

  // ---------- a value that waits ----------

  /** A phi of an object and of a cast of it. */
  function CastAndPhi(): Program {
    Program(map[0 := Phi([2, 1]), 1 := BitCast(2), 2 := Alloca], map[], {2}, map[])
  }

  function CastAndPhiGraph(): Graph<ValueId> {
    Graph(map[0 := [2, 1], 1 := [2], 2 := []], map[0 := {}, 1 := {}, 2 := {2}])
  }

  lemma CastAndPhiIs()
    ensures WellFormed(CastAndPhi()) && AllocGraph(CastAndPhi()) == CastAndPhiGraph()
  {
    AllocGraphIs(CastAndPhi(), CastAndPhiGraph());
    UnusedWellFormed(CastAndPhi());
  }

  /** Nothing is cyclic here; but 2 waits when 1 is visited, the push is dropped, and 1
      is merged before 2 has an entry. */
  lemma DroppedPushLosesSites(cache: Cache<ValueId>)
    requires WellFormed(CastAndPhi()) && AllocGraph(CastAndPhi()).WellFormed()
    requires RunsTo(AllocGraph(CastAndPhi()), map[], 0, cache)
    ensures 1 in cache && 2 in AllocSites(CastAndPhi(), 1) && 2 !in cache[1]
  {
    CastAndPhiIs();
    hide RunsTo, AllocGraph, CastAndPhi, ShowsWithout, Sites, Reaches;
    var g := CastAndPhiGraph();
    var none: Cache<ValueId> := map[];
    assert none.Keys == {};
    OwnSite(g, 2, 2);
    Step(g, 1, 2);
    NotShown(g, 2, 1, 2, {1});
    assert WaitsBelow(g, none.Keys, 0, 0, 1, 2, 1);
    OrderLosesSites(g, none, 0, 0, 1, 2, 1, 2, cache);
  }

  // ---------- a cycle backwards ----------

  /** Two phis that take their values from each other and from an object each. */
  function PhiCycle(): Program {
    Program(map[0 := Phi([2, 1]), 1 := Phi([3, 0]), 2 := Alloca, 3 := Alloca], map[], {2, 3}, map[])
  }

  function PhiCycleGraph(): Graph<ValueId> {
    Graph(map[0 := [2, 1], 1 := [3, 0], 2 := [], 3 := []], map[0 := {}, 1 := {}, 2 := {2}, 3 := {3}])
  }

  lemma PhiCycleIs()
    ensures WellFormed(PhiCycle()) && AllocGraph(PhiCycle()) == PhiCycleGraph()
  {
    AllocGraphIs(PhiCycle(), PhiCycleGraph());
    UnusedWellFormed(PhiCycle());
  }

  /** 1 is merged before 0, at which the search has begun, has an entry. */
  lemma PhiCycleLosesSites(cache: Cache<ValueId>)
    requires WellFormed(PhiCycle()) && AllocGraph(PhiCycle()).WellFormed()
    requires RunsTo(AllocGraph(PhiCycle()), map[], 0, cache)
    ensures 1 in cache && 2 in AllocSites(PhiCycle(), 1) && 2 !in cache[1]
  {
    PhiCycleIs();
    hide RunsTo, AllocGraph, PhiCycle, ShowsWithout, Sites, Reaches;
    var g := PhiCycleGraph();
    var none: Cache<ValueId> := map[];
    assert none.Keys == {};
    assert g.succ[0][0] == 2 && g.succ[1][1] == 0;
    SiteNextTo(g, 0, 2, 2);
    Step(g, 1, 0);
    NotShown(g, 0, 1, 2, {1, 3});
    CycleLosesSites(g, none, 0, 1, 2, cache);
  }

  /** The two objects are sites to which each phi leads around the other. */
  lemma PhiCycleSeparated()
    requires AllocGraph(PhiCycle()).WellFormed()
    ensures Separated(AllocGraph(PhiCycle()), map[])
  {
    PhiCycleIs();
    hide AllocGraph, PhiCycle, Reaches;
    var g := PhiCycleGraph();
    var none: Cache<ValueId> := map[];
    assert none.Keys == {};
    forall a, b | a in g.succ && a != b && Reaches(g, none.Keys, b, a) ensures HasSiteBeyond(g, b, a) {
      PhiCycleStart(a, b);
      PhiCycleSite(a, b);
    }
  }

  lemma PhiCycleStart(a: Node, b: Node)
    requires a != b && Reaches(PhiCycleGraph(), {}, b, a)
    ensures b < 2
  {
    var g := PhiCycleGraph();
    var path :| IsPath(g, {}, path) && path[0] == b && path[|path| - 1] == a;
    if b >= 2 { StaysIn(g, {}, {b}, path, |path| - 1); }
  }

  lemma PhiCycleSite(a: Node, b: Node)
    requires PhiCycleGraph().WellFormed() && a < 4 && b < 2 && a != b
    ensures HasSiteBeyond(PhiCycleGraph(), b, a)
  {
    hide Reaches, Sites, ShowsWithout;
    var g := PhiCycleGraph();
    if a == 0 {
      assert g.succ[0][0] == 2;
      SiteNextTo(g, 0, 2, 2);
      NotShown(g, 0, 1, 2, {1, 3});
    } else if a == 1 {
      assert g.succ[1][0] == 3;
      SiteNextTo(g, 1, 3, 3);
      NotShown(g, 1, 0, 3, {0, 2});
    } else {
      OwnSite(g, a, a);
      NotShown(g, a, b, a, {0, 1, 5 - a});
    }
  }

  // ---------- a cycle forwards ----------

  /** A phi and a cast that feed each other, as in a loop over a list, and a load
      through the phi. */
  function PhiAndCast(): Program {
    Program(map[0 := BitCast(1), 1 := Phi([0]), 2 := Load(1)], map[0 := [1], 1 := [0, 2]], {}, map[])
  }

  function PhiAndCastGraph(): Graph<ValueId> {
    Graph(map[0 := [1], 1 := [0], 2 := []], map[0 := {}, 1 := {2}, 2 := {}])
  }

  lemma ForwardsOne(p: Program, v: ValueId, x: ValueId)
    requires p.Users(v) == [x]
    ensures Forwards(p, v) == ForwardsVia(p, v, x)
  {
    FlatMapOne(x, Via(p, v));
  }

  lemma ForwardsTwo(p: Program, v: ValueId, x: ValueId, y: ValueId)
    requires p.Users(v) == [x, y]
    ensures Forwards(p, v) == ForwardsVia(p, v, x) + ForwardsVia(p, v, y)
  {
    FlatMapOne(y, Via(p, v));
    assert [x, y][1..] == [y];
  }

  lemma FlatMapOne(x: ValueId, f: ValueId -> seq<ValueId>)
    ensures FlatMap([x], f) == f(x)
  {
    assert [x][1..] == [];
  }

  lemma PhiAndCastVia()
    ensures var p := PhiAndCast();
      ForwardsVia(p, 0, 1) == [1] && ForwardsVia(p, 1, 0) == [0] && ForwardsVia(p, 1, 2) == []
  {
    hide LoadedBack, IntoCallee;
  }

  lemma PhiAndCastForwards()
    ensures var p := PhiAndCast(); Forwards(p, 0) == [1] && Forwards(p, 1) == [0] && Forwards(p, 2) == []
  {
    var p := PhiAndCast();
    PhiAndCastVia();
    hide ForwardsVia, Forwards, FlatMap;
    assert p.Users(0) == [1] && p.Users(1) == [0, 2] && p.Users(2) == [];
    ForwardsOne(p, 0, 1);
    ForwardsTwo(p, 1, 0, 2);
    NoneForwards(p, 2);
    assert Forwards(p, 1) == [0] + [];
  }

  lemma NoneForwards(p: Program, v: ValueId)
    requires p.Users(v) == []
    ensures Forwards(p, v) == []
  {
  }

  lemma PhiAndCastSites()
    ensures var p := PhiAndCast(); InferSites(p, 0) == {} && InferSites(p, 1) == {2} && InferSites(p, 2) == {}
  {
    var p := PhiAndCast();
    assert p.Users(0) == [1] && p.Users(1) == [0, 2] && p.Users(2) == [];
    assert p.Def(1) == Phi([0]) && p.Def(2) == Load(1);
    LoadShows(p, 1, 2);
  }

  lemma LoadShows(p: Program, v: ValueId, u: ValueId)
    requires u in p.Users(v) && p.Def(u).Load?
    ensures u in InferSites(p, v)
  {
  }

  lemma PhiAndCastIs()
    ensures WellFormed(PhiAndCast()) && InferGraph(PhiAndCast()) == PhiAndCastGraph()
  {
    var p := PhiAndCast();
    PhiAndCastForwards();
    PhiAndCastSites();
    hide Forwards, InferSites;
    InferGraphIs(p, PhiAndCastGraph());
    AllocGraphIs(p, Graph(map[0 := [1], 1 := [0], 2 := []], map[0 := {}, 1 := {}, 2 := {}]));
    GraphsMakeWellFormed(p);
  }

  /** A query for the phi leaves the cast without the load. */
  lemma PhiAndCastLosesSites(cache: Cache<ValueId>)
    requires WellFormed(PhiAndCast()) && InferGraph(PhiAndCast()).WellFormed()
    requires RunsTo(InferGraph(PhiAndCast()), map[], 1, cache)
    ensures 0 in cache && 2 in ReachedInferSites(PhiAndCast(), 0) && 2 !in cache[0]
  {
    PhiAndCastIs();
    hide RunsTo, InferGraph, PhiAndCast, ShowsWithout, Sites, Reaches;
    var g := PhiAndCastGraph();
    var none: Cache<ValueId> := map[];
    assert none.Keys == {};
    OwnSite(g, 1, 2);
    Step(g, 0, 1);
    NotShown(g, 1, 0, 2, {0});
    CycleLosesSites(g, none, 1, 0, 2, cache);
  }
}
