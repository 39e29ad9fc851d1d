/** Building the control flow graph function by function with a worklist. */
module ICFGBuilder {
  import opened ICFG
  import opened NextInstructions
  import opened WorkLists
  import opened Sequences
  import opened Options

  // ---------- what the graph holds part way through ----------

  /** `dst` is the node of an instruction that follows `u`. */
  ghost predicate GoesTo(p: Program, u: Loc, dst: Node)
    requires WellFormed(p) && IsLoc(p, u)
  {
    (dst.Intra? || dst.CallNode?) && dst.inst in NextInsts(p, u) && IsLoc(p, dst.inst) && dst == NodeOf(p, dst.inst)
  }

  /** `dst` is the node of an instruction at which control enters `g`. */
  ghost predicate EntersAt(p: Program, g: nat, dst: Node)
    requires WellFormed(p) && Defined(p, g)
  {
    (dst.Intra? || dst.CallNode?) && dst.inst in EntryInsts(p, g) && IsLoc(p, dst.inst) && dst == NodeOf(p, dst.inst)
  }

  ghost predicate NodeExpected(p: Program, visited: set<Loc>, n: Node)
    requires forall u | u in visited :: IsLoc(p, u)
  {
    match n
    case FunEntry(g) => Defined(p, g)
    case FunExit(g) => Defined(p, g)
    case Intra(u) => u in visited && !At(p, u).Call?
    case CallNode(u) => u in visited && At(p, u).Call?
    case RetNode(u) => u in visited && At(p, u).Call?
  }

  /** Edges appear when a function is entered, when a call is first seen, and when
      an instruction is processed. */
  ghost predicate EdgeExpected(p: Program, visited: set<Loc>, done: set<Loc>, started: set<nat>, e: Edge)
    requires WellFormed(p) && done <= visited && forall u | u in visited :: IsLoc(p, u)
  {
    match e.kind
    case CallCF =>
      && e.src.CallNode? && e.src.inst in visited
      && Entered(p, e.src.inst).Some? && e.dst == FunEntry(Entered(p, e.src.inst).value)
    case RetCF =>
      && e.dst.RetNode? && e.dst.inst in visited
      && Entered(p, e.dst.inst).Some? && e.src == FunExit(Entered(p, e.dst.inst).value)
    case IntraCF =>
      match e.src
      case FunEntry(g) => g in started && Defined(p, g) && EntersAt(p, g, e.dst)
      case FunExit(_) => false
      case CallNode(u) => u in visited && At(p, u).Call? && Entered(p, u).None? && e.dst == RetNode(u)
      case RetNode(u) => u in done && At(p, u).Call? && GoesTo(p, u, e.dst)
      case Intra(u) =>
        && u in done && !At(p, u).Call?
        && (GoesTo(p, u, e.dst) || (At(p, u).Return? && e.dst == FunExit(u.fun)))
  }

  function FirstIndex<T(==)>(s: seq<T>, x: T): (k: nat)
    requires x in s
    ensures k < |s| && s[k] == x && forall j | 0 <= j < k :: s[j] != x
  {
    if s[0] == x then 0 else 1 + FirstIndex(s[1..], x)
  }

  /** The condition an edge carries: that of the first way to its target. */
  ghost function LabelOf(p: Program, e: Edge): Option<int>
    requires WellFormed(p)
  {
    if e.kind.IntraCF? && e.src.Intra? && IsLoc(p, e.src.inst) && GoesTo(p, e.src.inst, e.dst)
    then Condition(p, e.src.inst, e.dst.inst, FirstIndex(NextInsts(p, e.src.inst), e.dst.inst))
    else None
  }

  ghost predicate NodesOk(p: Program, visited: set<Loc>, nodes: seq<Node>)
    requires forall u | u in visited :: IsLoc(p, u)
  {
    Distinct(nodes) && forall n :: n in nodes <==> NodeExpected(p, visited, n)
  }

  /** `extra` are the edges so far of an instruction that is being processed. */
  ghost predicate EdgesOk(p: Program, visited: set<Loc>, done: set<Loc>, started: set<nat>, extra: set<Edge>,
                          edges: map<Edge, Option<int>>)
    requires WellFormed(p) && done <= visited && forall u | u in visited :: IsLoc(p, u)
  {
    && (forall e :: e in edges <==> EdgeExpected(p, visited, done, started, e) || e in extra)
    && (forall e | e in edges :: edges[e] == LabelOf(p, e))
  }

  ghost predicate Inv(p: Program, visited: set<Loc>, done: set<Loc>, started: set<nat>, extra: set<Edge>,
                      nodes: seq<Node>, edges: map<Edge, Option<int>>)
    requires WellFormed(p)
  {
    && done <= visited && (forall u | u in visited :: IsLoc(p, u))
    && NodesOk(p, visited, nodes) && EdgesOk(p, visited, done, started, extra, edges)
    && (forall u, v | u in done && v in NextInsts(p, u) :: v in visited)
  }

  /** An edge between two nodes is added once; its condition is never changed. */
  function AddEdge(edges: map<Edge, Option<int>>, e: Edge, c: Option<int>): map<Edge, Option<int>> {
    if e in edges then edges else edges[e := c]
  }

  function BlockNodes(p: Program, u: Loc): seq<Node>
    requires IsLoc(p, u)
  {
    if At(p, u).Call? then [CallNode(u), RetNode(u)] else [Intra(u)]
  }

  function InterEdges(p: Program, u: Loc, edges: map<Edge, Option<int>>): map<Edge, Option<int>>
    requires IsLoc(p, u) && At(p, u).Call?
  {
    match Entered(p, u)
    case None => AddEdge(edges, Edge(IntraCF, CallNode(u), RetNode(u)), None)
    case Some(g) =>
      AddEdge(AddEdge(edges, Edge(CallCF, CallNode(u), FunEntry(g)), None), Edge(RetCF, FunExit(g), RetNode(u)), None)
  }

  function BlockEdges(p: Program, u: Loc, edges: map<Edge, Option<int>>): map<Edge, Option<int>>
    requires IsLoc(p, u)
  {
    if At(p, u).Call? then InterEdges(p, u, edges) else edges
  }

  lemma VisitNodes(p: Program, visited: set<Loc>, nodes: seq<Node>, u: Loc)
    requires (forall w | w in visited :: IsLoc(p, w)) && NodesOk(p, visited, nodes)
    requires IsLoc(p, u) && u !in visited
    ensures Intra(u) !in nodes && CallNode(u) !in nodes && RetNode(u) !in nodes
    ensures NodesOk(p, visited + {u}, nodes + BlockNodes(p, u))
  {
  }

  lemma VisitEdges(p: Program, visited: set<Loc>, done: set<Loc>, started: set<nat>, extra: set<Edge>,
                   edges: map<Edge, Option<int>>, u: Loc)
    requires WellFormed(p) && done <= visited && forall w | w in visited :: IsLoc(p, w)
    requires EdgesOk(p, visited, done, started, extra, edges)
    requires IsLoc(p, u) && u !in visited
    ensures EdgesOk(p, visited + {u}, done, started, extra, BlockEdges(p, u, edges))
  {
    hide WellFormed, NoIntrinsicLoops, Formed, GoesTo, NextInsts;
    WellFormedIsFormed(p);
    var visited', edges' := visited + {u}, BlockEdges(p, u, edges);
    forall e ensures e in edges' <==> EdgeExpected(p, visited', done, started, e) || e in extra {}
    forall e | e in edges' ensures edges'[e] == LabelOf(p, e) {}
  }

  /** Seeing an instruction for the first time. */
  lemma VisitKeeps(p: Program, visited: set<Loc>, done: set<Loc>, started: set<nat>, extra: set<Edge>,
                   nodes: seq<Node>, edges: map<Edge, Option<int>>, u: Loc)
    requires WellFormed(p) && Inv(p, visited, done, started, extra, nodes, edges)
    requires IsLoc(p, u) && u !in visited
    ensures Intra(u) !in nodes && CallNode(u) !in nodes && RetNode(u) !in nodes
    ensures Inv(p, visited + {u}, done, started, extra, nodes + BlockNodes(p, u), BlockEdges(p, u, edges))
  {
    hide WellFormed, NoIntrinsicLoops, Formed, NodesOk, EdgesOk, BlockNodes, BlockEdges, NextInsts;
    WellFormedIsFormed(p);
    VisitNodes(p, visited, nodes, u);
    VisitEdges(p, visited, done, started, extra, edges, u);
  }

  /** The edges of an instruction, all of which leave from its source node. */
  ghost predicate LeavesFrom(p: Program, u: Loc, e: Edge)
    requires WellFormed(p) && IsLoc(p, u)
  {
    && e.kind.IntraCF? && e.src == SourceOf(p, u)
    && (GoesTo(p, u, e.dst) || (At(p, u).Return? && e.dst == FunExit(u.fun)))
  }

  /** What `extra` holds after the first `k` successors of `u`. */
  ghost predicate SoFar(p: Program, u: Loc, k: nat, extra: set<Edge>)
    requires WellFormed(p) && IsLoc(p, u) && k <= |NextInsts(p, u)|
  {
    && (forall e | e in extra :: LeavesFrom(p, u, e))
    && (forall e | LeavesFrom(p, u, e) && (e.dst.FunExit? || e.dst.inst in NextInsts(p, u)[..k]) :: e in extra)
    && (forall e | e in extra && !e.dst.FunExit? :: e.dst.inst in NextInsts(p, u)[..k])
  }

  /** The edge to the `k`-th successor gets that successor's condition, unless an
      earlier successor is the same instruction. */
  lemma NextEdgeLabel(p: Program, u: Loc, k: nat)
    requires WellFormed(p) && IsLoc(p, u) && k < |NextInsts(p, u)|
    ensures IsLoc(p, NextInsts(p, u)[k])
    ensures GoesTo(p, u, NodeOf(p, NextInsts(p, u)[k])) && NodeOf(p, NextInsts(p, u)[k]).inst == NextInsts(p, u)[k]
    ensures NextInsts(p, u)[k] !in NextInsts(p, u)[..k] ==>
              LabelOf(p, Edge(IntraCF, SourceOf(p, u), NodeOf(p, NextInsts(p, u)[k]))) ==
              Condition(p, u, NextInsts(p, u)[k], k)
  {
    hide WellFormed, NoIntrinsicLoops, Formed, NextInsts;
    WellFormedIsFormed(p);
    NextAreLocs(p, u);
    var next := NextInsts(p, u);
    assert next[k] in next;
    var i := FirstIndex(next, next[k]);
    if i < k { assert next[i] in next[..k]; }
  }

  lemma NextEdgeKeeps(p: Program, visited: set<Loc>, done: set<Loc>, started: set<nat>, extra: set<Edge>,
                      edges: map<Edge, Option<int>>, u: Loc, k: nat) returns (extra': set<Edge>)
    requires WellFormed(p) && done <= visited && forall w | w in visited :: IsLoc(p, w)
    requires EdgesOk(p, visited, done, started, extra, edges)
    requires u in visited && u !in done && k < |NextInsts(p, u)| && SoFar(p, u, k, extra) &&
             IsLoc(p, NextInsts(p, u)[k])
    ensures SoFar(p, u, k + 1, extra')
    ensures EdgesOk(p, visited, done, started, extra',
                    AddEdge(edges, Edge(IntraCF, SourceOf(p, u), NodeOf(p, NextInsts(p, u)[k])),
                            Condition(p, u, NextInsts(p, u)[k], k)))
  {
    hide WellFormed, NoIntrinsicLoops, Formed, NextInsts, Condition, LabelOf;
    WellFormedIsFormed(p);
    NextEdgeLabel(p, u, k);
    var next := NextInsts(p, u);
    var e := Edge(IntraCF, SourceOf(p, u), NodeOf(p, next[k]));
    extra' := extra + {e};
    assert next[..k + 1] == next[..k] + [next[k]];
    assert !EdgeExpected(p, visited, done, started, e);
  }

  /** Once all successors are connected the instruction is finished. */
  lemma FinishKeeps(p: Program, visited: set<Loc>, done: set<Loc>, started: set<nat>, extra: set<Edge>,
                    edges: map<Edge, Option<int>>, u: Loc)
    requires WellFormed(p) && done <= visited && forall w | w in visited :: IsLoc(p, w)
    requires EdgesOk(p, visited, done, started, extra, edges)
    requires u in visited && u !in done && SoFar(p, u, |NextInsts(p, u)|, extra)
    ensures EdgesOk(p, visited, done + {u}, started, {}, edges)
  {
    hide WellFormed, NoIntrinsicLoops, Formed, NextInsts, LabelOf;
    WellFormedIsFormed(p);
    var next := NextInsts(p, u);
    assert next[..|next|] == next;
    forall e
      ensures EdgeExpected(p, visited, done + {u}, started, e) <==>
                EdgeExpected(p, visited, done, started, e) || LeavesFrom(p, u, e)
    {
    }
    forall e ensures LeavesFrom(p, u, e) <==> e in extra {}
  }

  /** What `extra` holds after the first `k` instructions at which `g` is entered. */
  ghost predicate EnteredSoFar(p: Program, g: nat, k: nat, extra: set<Edge>)
    requires WellFormed(p) && Defined(p, g) && k <= |EntryInsts(p, g)|
  {
    && (forall e | e in extra :: e.kind.IntraCF? && e.src == FunEntry(g) && EntersAt(p, g, e.dst))
    && (forall e: Edge | e.kind.IntraCF? && e.src == FunEntry(g) && EntersAt(p, g, e.dst) ::
          (e.dst.inst in EntryInsts(p, g)[..k] <==> e in extra))
  }

  /** Entering a function connects its entry node to one of its first instructions. */
  lemma EntryKeeps(p: Program, visited: set<Loc>, done: set<Loc>, started: set<nat>, extra: set<Edge>,
                   edges: map<Edge, Option<int>>, g: nat, k: nat) returns (extra': set<Edge>)
    requires WellFormed(p) && done <= visited && forall w | w in visited :: IsLoc(p, w)
    requires EdgesOk(p, visited, done, started, extra, edges) && Defined(p, g) && g !in started
    requires k < |EntryInsts(p, g)| && EnteredSoFar(p, g, k, extra) && IsLoc(p, EntryInsts(p, g)[k])
    ensures EnteredSoFar(p, g, k + 1, extra')
    ensures EdgesOk(p, visited, done, started, extra',
                    AddEdge(edges, Edge(IntraCF, FunEntry(g), NodeOf(p, EntryInsts(p, g)[k])), None))
  {
    hide WellFormed, NoIntrinsicLoops, Formed, EntryInsts, GoesTo, Distinct;
    WellFormedIsFormed(p);
    var insts := EntryInsts(p, g);
    var e := Edge(IntraCF, FunEntry(g), NodeOf(p, insts[k]));
    assert insts[..k + 1] == insts[..k] + [insts[k]];
    extra' := extra + {e};
  }

  lemma EnteredKeeps(p: Program, visited: set<Loc>, done: set<Loc>, started: set<nat>, extra: set<Edge>,
                     edges: map<Edge, Option<int>>, g: nat)
    requires WellFormed(p) && done <= visited && forall w | w in visited :: IsLoc(p, w)
    requires EdgesOk(p, visited, done, started, extra, edges) && Defined(p, g) && g !in started
    requires EnteredSoFar(p, g, |EntryInsts(p, g)|, extra)
    ensures EdgesOk(p, visited, done, started + {g}, {}, edges)
  {
    hide WellFormed, NoIntrinsicLoops, Formed, EntryInsts, GoesTo, LabelOf;
    WellFormedIsFormed(p);
    var insts := EntryInsts(p, g);
    assert insts[..|insts|] == insts;
    forall e ensures EdgeExpected(p, visited, done, started + {g}, e) <==>
                       EdgeExpected(p, visited, done, started, e) || e in extra
    {
    }
  }

  // ---------- every instruction is found ----------

  ghost predicate ReachableBlock(p: Program, g: nat, b: nat) {
    exists path: seq<nat> :: BlockPath(p, g, b, path)
  }

  ghost predicate BlockPath(p: Program, g: nat, b: nat, path: seq<nat>) {
    && path != [] && path[0] == 0 && path[|path| - 1] == b
    && (forall k | 0 <= k < |path| :: IsBlock(p, g, path[k]))
    && forall k | 0 <= k < |path| - 1 :: path[k + 1] in p[g].blocks[path[k]].succs
  }

  /** With an instruction also those that follow it are in `all`. */
  ghost predicate FollowClosed(p: Program, all: set<Loc>)
    requires WellFormed(p)
  {
    forall u, v | u in all && IsLoc(p, u) && v in NextInsts(p, u) :: v in all
  }

  ghost predicate Covers(p: Program, g: nat, b: nat, all: set<Loc>) {
    forall k: nat | IsLoc(p, Loc(g, b, k)) && !At(p, Loc(g, b, k)).Intrinsic? :: Loc(g, b, k) in all
  }

  /** Control may go along `path`. */
  ghost predicate Walk(p: Program, path: seq<Loc>) {
    && path != [] && (forall k | 0 <= k < |path| :: IsLoc(p, path[k]))
    && forall k | 0 <= k < |path| - 1 :: Step(p, path[k], path[k + 1])
  }

  /** The last instruction before the end of a walk that is not an intrinsic. */
  lemma LastReal(p: Program, path: seq<Loc>) returns (k: int)
    requires Walk(p, path)
    ensures -1 <= k < |path| - 1 && (k >= 0 ==> !At(p, path[k]).Intrinsic?)
    ensures forall j | k < j < |path| - 1 :: At(p, path[j]).Intrinsic?
  {
    k := |path| - 2;
    while k >= 0 && At(p, path[k]).Intrinsic?
      invariant -1 <= k < |path| - 1
      invariant forall j | k < j < |path| - 1 :: At(p, path[j]).Intrinsic?
    {
      k := k - 1;
    }
  }

  lemma WalkFollows(p: Program, path: seq<Loc>, k: nat)
    requires Walk(p, path) && k < |path| - 1 && !At(p, path[|path| - 1]).Intrinsic?
    requires forall j | k < j < |path| - 1 :: At(p, path[j]).Intrinsic?
    ensures Follows(p, path[k], path[|path| - 1])
  {
    var rest := path[k..];
    forall j | 0 <= j < |rest| - 1 ensures Step(p, rest[j], rest[j + 1]) {
      assert Step(p, path[k + j], path[k + j + 1]);
    }
    assert ThroughIntrinsics(p, path[k], path[|path| - 1], rest);
  }

  /** If `all` is closed, a walk from an instruction in it, or from an entry whose first
      instructions are in it, finds every instruction that is not an intrinsic. */
  lemma {:induction false} WalkCovered(p: Program, g: nat, path: seq<Loc>, all: set<Loc>)
    requires WellFormed(p) && FollowClosed(p, all) && Walk(p, path) && !At(p, path[|path| - 1]).Intrinsic?
    requires path[0] in all ||
             (Defined(p, g) && path[0] == Loc(g, 0, 0) && forall v | v in EntryInsts(p, g) :: v in all)
    ensures path[|path| - 1] in all
    decreases |path|
  {
    hide NextInsts, NoIntrinsicLoops, Formed, Follows, Step;
    var last := path[|path| - 1];
    if |path| > 1 {
      var k := LastReal(p, path);
      if k >= 0 {
        WalkCovered(p, g, path[..k + 1], all);
        WalkFollows(p, path, k);
        NextInstsIff(p, path[k], last);
      } else {
        WalkFollows(p, path, 0);
        NextInstsIff(p, path[0], last);
      }
    }
  }

  lemma DownBlock(p: Program, g: nat, b: nat, k: nat) returns (path: seq<Loc>)
    requires Formed(p) && IsLoc(p, Loc(g, b, k))
    ensures Walk(p, path) && path[0] == Loc(g, b, 0) && path[|path| - 1] == Loc(g, b, k)
  {
    path := seq(k + 1, i requires 0 <= i <= k => Loc(g, b, i));
  }

  lemma WalkOn(p: Program, first: seq<Loc>, second: seq<Loc>)
    requires Walk(p, first) && Walk(p, second) && Step(p, first[|first| - 1], second[0])
    ensures Walk(p, first + second)
  {
    var path := first + second;
    forall k | 0 <= k < |path| - 1 ensures Step(p, path[k], path[k + 1]) {
      if k >= |first| { assert Step(p, second[k - |first|], second[k - |first| + 1]); }
    }
  }

  /** Control reaches every instruction of a block that is reachable from the entry. */
  lemma {:induction false} BlockReached(p: Program, g: nat, b: nat, k: nat, path: seq<nat>) returns (walk: seq<Loc>)
    requires Formed(p) && BlockPath(p, g, b, path) && IsLoc(p, Loc(g, b, k))
    ensures Walk(p, walk) && walk[0] == Loc(g, 0, 0) && walk[|walk| - 1] == Loc(g, b, k)
    decreases |path|
  {
    walk := DownBlock(p, g, b, k);
    if |path| > 1 {
      var a := path[|path| - 2];
      BlockStart(p, g, a);
      var front := path[..|path| - 1];
      var last := |p[g].blocks[a].insts| - 1;
      var before := BlockReached(p, g, a, last, front);
      assert path[|path| - 2 + 1] in p[g].blocks[path[|path| - 2]].succs;
      assert Step(p, Loc(g, a, last), Loc(g, b, 0));
      WalkOn(p, before, walk);
      walk := before + walk;
    }
  }

  lemma ReachableCovered(p: Program, g: nat, b: nat, path: seq<nat>, all: set<Loc>)
    requires WellFormed(p) && FollowClosed(p, all) && Defined(p, g) && forall v | v in EntryInsts(p, g) :: v in all
    requires BlockPath(p, g, b, path)
    ensures Covers(p, g, b, all)
  {
    hide FollowClosed, NoIntrinsicLoops, EntryInsts, Formed, Walk, BlockPath;
    forall k: nat | IsLoc(p, Loc(g, b, k)) && !At(p, Loc(g, b, k)).Intrinsic? ensures Loc(g, b, k) in all {
      var walk := BlockReached(p, g, b, k, path);
      assert walk != [] by { WalkNotEmpty(p, walk); }
      WalkCovered(p, g, walk, all);
    }
  }

  lemma WalkNotEmpty(p: Program, path: seq<Loc>)
    requires Walk(p, path)
    ensures path != []
  {
  }

  /** A block that is entered at its first instruction is found as a whole. */
  lemma BlockCovered(p: Program, g: nat, b: nat, all: set<Loc>)
    requires WellFormed(p) && FollowClosed(p, all) && Loc(g, b, 0) in all
    ensures Covers(p, g, b, all)
  {
    hide FollowClosed, NoIntrinsicLoops, EntryInsts, Formed, Walk;
    forall k: nat | IsLoc(p, Loc(g, b, k)) && !At(p, Loc(g, b, k)).Intrinsic? ensures Loc(g, b, k) in all {
      var walk := DownBlock(p, g, b, k);
      assert walk != [] by { WalkNotEmpty(p, walk); }
      WalkCovered(p, g, walk, all);
    }
  }

  // ---------- what a finished graph is ----------

  ghost function AllDefined(p: Program): set<nat> {
    set g: nat | g < |p| && Defined(p, g)
  }

  /** The instructions that belong in the graph: all but intrinsics, and the intrinsics at
      the front of blocks that control does not reach. */
  predicate Found(p: Program, reachableBBs: seq<set<nat>>, u: Loc)
    requires |reachableBBs| == |p|
  {
    IsLoc(p, u) && (At(p, u).Intrinsic? ==> u.idx == 0 && u.block !in reachableBBs[u.fun])
  }

  /** Exactly these instructions are found and processed, and every function is entered. */
  ghost predicate Finished(p: Program, reachableBBs: seq<set<nat>>, visited: set<Loc>, nodes: seq<Node>,
                           edges: map<Edge, Option<int>>)
    requires WellFormed(p) && |reachableBBs| == |p|
  {
    && Inv(p, visited, visited, AllDefined(p), {}, nodes, edges)
    && forall u :: u in visited <==> Found(p, reachableBBs, u)
  }

  /** An intrinsic has a node exactly if it is at the front of a block that control does
      not reach; no edge ends there, and one leaves from there only then. */
  lemma IntrinsicNodes(p: Program, reachableBBs: seq<set<nat>>, visited: set<Loc>, nodes: seq<Node>,
                       edges: map<Edge, Option<int>>, u: Loc)
    requires WellFormed(p) && |reachableBBs| == |p| && Finished(p, reachableBBs, visited, nodes, edges)
    requires IsLoc(p, u) && At(p, u).Intrinsic?
    ensures Intra(u) in nodes <==> u.idx == 0 && u.block !in reachableBBs[u.fun]
    ensures CallNode(u) !in nodes && RetNode(u) !in nodes
    ensures forall e | e in edges :: e.dst != Intra(u) && (e.src == Intra(u) ==> Intra(u) in nodes)
  {
    hide WellFormed, Formed, NoIntrinsicLoops, NextInsts, EntryInsts, LabelOf;
    WellFormedIsFormed(p);
    forall e | e in edges ensures e.dst != Intra(u) && (e.src == Intra(u) ==> Intra(u) in nodes) {
      assert EdgeExpected(p, visited, visited, AllDefined(p), e);
      if e.dst == Intra(u) { NotTarget(p, visited, e, u); }
    }
  }

  lemma NotTarget(p: Program, visited: set<Loc>, e: Edge, u: Loc)
    requires WellFormed(p) && (forall w | w in visited :: IsLoc(p, w)) && IsLoc(p, u)
    requires EdgeExpected(p, visited, visited, AllDefined(p), e) && e.dst == Intra(u)
    ensures !At(p, u).Intrinsic?
  {
    hide WellFormed, Formed, NoIntrinsicLoops, NextInsts, EntryInsts;
    WellFormedIsFormed(p);
    match e.src
    case FunEntry(g) => EntriesAreLocs(p, g);
    case RetNode(w) => NextAreLocs(p, w);
    case Intra(w) => NextAreLocs(p, w);
    case _ =>
  }

  /** Every instruction that is not an intrinsic has its node, a call two, and no
      node is there twice. */
  lemma NodesComplete(p: Program, reachableBBs: seq<set<nat>>, visited: set<Loc>, nodes: seq<Node>,
                      edges: map<Edge, Option<int>>, u: Loc)
    requires WellFormed(p) && |reachableBBs| == |p| && Finished(p, reachableBBs, visited, nodes, edges) &&
             IsLoc(p, u) && !At(p, u).Intrinsic?
    ensures Distinct(nodes)
    ensures CallNode(u) in nodes <==> At(p, u).Call?
    ensures RetNode(u) in nodes <==> At(p, u).Call?
    ensures Intra(u) in nodes <==> !At(p, u).Call?
  {
  }

  /** Every function with a body has its entry and exit, and all other nodes stand for
      instructions that belong in the graph. */
  lemma OtherNodes(p: Program, reachableBBs: seq<set<nat>>, visited: set<Loc>, nodes: seq<Node>,
                   edges: map<Edge, Option<int>>, n: Node)
    requires WellFormed(p) && |reachableBBs| == |p| && Finished(p, reachableBBs, visited, nodes, edges)
    ensures n.FunEntry? || n.FunExit? ==> (n in nodes <==> n.fun < |p| && p[n.fun].blocks != [])
    ensures n in nodes && !n.FunEntry? && !n.FunExit? ==> Found(p, reachableBBs, n.inst)
  {
    hide WellFormed, EdgesOk;
  }

  /** There is an edge from the node at which control leaves `u`, its return node if `u` is
      a call, to that of `v` exactly when `v` follows `u` through intrinsics only. */
  lemma EdgeIffFollows(p: Program, reachableBBs: seq<set<nat>>, visited: set<Loc>, nodes: seq<Node>,
                       edges: map<Edge, Option<int>>, u: Loc, v: Loc)
    requires WellFormed(p) && |reachableBBs| == |p| && Finished(p, reachableBBs, visited, nodes, edges)
    requires Found(p, reachableBBs, u) && IsLoc(p, v)
    ensures var src := if At(p, u).Call? then RetNode(u) else Intra(u);
      var dst := if At(p, v).Call? then CallNode(v) else Intra(v);
      Edge(IntraCF, src, dst) in edges <==> Follows(p, u, v)
  {
    hide WellFormed, NoIntrinsicLoops, Formed, NextInsts, Follows, NodesOk;
    WellFormedIsFormed(p);
    NextInstsIff(p, u, v);
    var e := Edge(IntraCF, SourceOf(p, u), NodeOf(p, v));
    assert e in edges <==> EdgeExpected(p, visited, visited, AllDefined(p), e);
  }

  /** The call at `u` enters function `g`. */
  ghost predicate Enters(p: Program, u: Loc, g: nat)
    requires IsLoc(p, u)
  {
    At(p, u).Call? && At(p, u).callee == Some(g) && g < |p| && !p[g].ext
  }

  /** Entry, exit and call edges. */
  lemma OtherEdges(p: Program, reachableBBs: seq<set<nat>>, visited: set<Loc>, nodes: seq<Node>,
                   edges: map<Edge, Option<int>>, u: Loc, g: nat)
    requires WellFormed(p) && |reachableBBs| == |p| && Finished(p, reachableBBs, visited, nodes, edges)
    requires IsLoc(p, u) && !At(p, u).Intrinsic?
    ensures Edge(IntraCF, Intra(u), FunExit(g)) in edges <==> At(p, u).Return? && g == u.fun
    ensures Edge(CallCF, CallNode(u), FunEntry(g)) in edges <==> Enters(p, u, g)
    ensures Edge(RetCF, FunExit(g), RetNode(u)) in edges <==> Enters(p, u, g)
    ensures Edge(IntraCF, CallNode(u), RetNode(u)) in edges <==> At(p, u).Call? && !exists h: nat :: Enters(p, u, h)
    ensures Edge(IntraCF, FunEntry(g), if At(p, u).Call? then CallNode(u) else Intra(u)) in edges <==>
              Defined(p, g) && Leads(p, Loc(g, 0, 0), u)
  {
    hide WellFormed, NoIntrinsicLoops, Formed, NextInsts, NodesOk, EntryInsts, Leads, LabelOf;
    WellFormedIsFormed(p);
    if Defined(p, g) { EntriesIff(p, g, u); }
    EnteredIff(p, u);
    hide Enters, Entered;
    var started := AllDefined(p);
    forall e ensures e in edges <==> EdgeExpected(p, visited, visited, started, e) {}
  }

  lemma EnteredIff(p: Program, u: Loc)
    requires IsLoc(p, u)
    ensures forall g: nat :: Entered(p, u) == Some(g) <==> Enters(p, u, g)
    ensures Entered(p, u).Some? ==> At(p, u).Call? && Enters(p, u, Entered(p, u).value)
  {
  }

  lemma EnteredIsDefined(p: Program, u: Loc)
    requires Formed(p) && IsLoc(p, u) && Entered(p, u).Some?
    ensures At(p, u).Call? && Defined(p, Entered(p, u).value)
  {
    assert FormedBlock(p, u.fun, p[u.fun].blocks[u.block]);
  }

  lemma TargetsFound(p: Program, reachableBBs: seq<set<nat>>, g: nat, u: Loc, dst: Node)
    requires WellFormed(p) && |reachableBBs| == |p|
    ensures Defined(p, g) && EntersAt(p, g, dst) ==> Found(p, reachableBBs, dst.inst)
    ensures IsLoc(p, u) && GoesTo(p, u, dst) ==> Found(p, reachableBBs, dst.inst)
  {
    if Defined(p, g) { EntriesAreLocs(p, g); }
    if IsLoc(p, u) { NextAreLocs(p, u); }
  }

  /** Every edge connects two nodes of the graph and is of one of these kinds: there are no
      others. */
  lemma OnlyTheseEdges(p: Program, reachableBBs: seq<set<nat>>, visited: set<Loc>, nodes: seq<Node>,
                       edges: map<Edge, Option<int>>, e: Edge)
    requires WellFormed(p) && |reachableBBs| == |p| && Finished(p, reachableBBs, visited, nodes, edges) && e in edges
    ensures e.src in nodes && e.dst in nodes
    ensures match e.kind
            case CallCF => e.src.CallNode? && e.dst.FunEntry?
            case RetCF => e.src.FunExit? && e.dst.RetNode?
            case IntraCF =>
              || (e.src.FunEntry? && (e.dst.Intra? || e.dst.CallNode?))
              || (e.src.Intra? && (e.dst.Intra? || e.dst.CallNode? || e.dst == FunExit(e.src.inst.fun)))
              || (e.src.RetNode? && (e.dst.Intra? || e.dst.CallNode?))
              || (e.src.CallNode? && e.dst == RetNode(e.src.inst))
  {
    hide WellFormed, NoIntrinsicLoops, Formed, NextInsts, EntryInsts, LabelOf, GoesTo, EntersAt, Entered;
    WellFormedIsFormed(p);
    assert EdgeExpected(p, visited, visited, AllDefined(p), e);
    var g := if e.src.FunEntry? then e.src.fun else 0;
    var u := if e.src.FunEntry? || e.src.FunExit? then Loc(0, 0, 0) else e.src.inst;
    TargetsFound(p, reachableBBs, g, u, e.dst);
    KindOfTarget(p, g, u, e.dst);
    if e.kind.CallCF? { EnteredIsDefined(p, e.src.inst); }
    if e.kind.RetCF? { EnteredIsDefined(p, e.dst.inst); }
  }

  lemma KindOfTarget(p: Program, g: nat, u: Loc, dst: Node)
    requires WellFormed(p)
    ensures (Defined(p, g) && EntersAt(p, g, dst)) || (IsLoc(p, u) && GoesTo(p, u, dst)) ==>
              (dst.Intra? || dst.CallNode?) && IsLoc(p, dst.inst) && dst == NodeOf(p, dst.inst)
  {
  }

  /** Only edges from conditional branches and switches carry a condition. */
  lemma OtherConditions(p: Program, reachableBBs: seq<set<nat>>, visited: set<Loc>, nodes: seq<Node>,
                        edges: map<Edge, Option<int>>, e: Edge)
    requires WellFormed(p) && |reachableBBs| == |p| && Finished(p, reachableBBs, visited, nodes, edges) && e in edges
    ensures edges[e].Some? ==>
              e.kind.IntraCF? && e.src.Intra? && IsLoc(p, e.src.inst) &&
              (At(p, e.src.inst).CondBranch? || At(p, e.src.inst).Switch?)
  {
    hide WellFormed, NoIntrinsicLoops, Formed, NextInsts, EntryInsts, NodesOk;
    WellFormedIsFormed(p);
    assert edges[e] == LabelOf(p, e);
  }

  /** Of a conditional branch the edge to the first successor's instruction carries 1;
      the second's carries 0, unless both lead to the same instruction: then only the
      edge with 1 is there. */
  lemma BranchConditions(p: Program, reachableBBs: seq<set<nat>>, visited: set<Loc>, nodes: seq<Node>,
                         edges: map<Edge, Option<int>>, u: Loc)
    requires WellFormed(p) && |reachableBBs| == |p| && Finished(p, reachableBBs, visited, nodes, edges) &&
             IsLoc(p, u) && At(p, u).CondBranch?
    ensures |NextInsts(p, u)| == |BlockOf(p, u).succs| == 2
    ensures forall k | 0 <= k < 2 ::
              IsLoc(p, NextInsts(p, u)[k]) && Leads(p, Loc(u.fun, BlockOf(p, u).succs[k], 0), NextInsts(p, u)[k])
    ensures var yes := Edge(IntraCF, Intra(u), NodeOf(p, NextInsts(p, u)[0]));
      var no := Edge(IntraCF, Intra(u), NodeOf(p, NextInsts(p, u)[1]));
      && yes in edges && edges[yes] == Some(1)
      && no in edges && (edges[no] == Some(0) <==> NextInsts(p, u)[0] != NextInsts(p, u)[1])
  {
    hide WellFormed, NoIntrinsicLoops, Formed, NextInsts, Finished, Leads, LabelOf;
    WellFormedIsFormed(p);
    BranchTargets(p, u);
    var next := NextInsts(p, u);
    NextEdgeLabel(p, u, 0);
    NextEdgeLabel(p, u, 1);
    NextEdge(p, reachableBBs, visited, nodes, edges, u, 0);
    NextEdge(p, reachableBBs, visited, nodes, edges, u, 1);
    assert next[1] in next[..1] <==> next[1] == next[0];
  }

  lemma NextEdge(p: Program, reachableBBs: seq<set<nat>>, visited: set<Loc>, nodes: seq<Node>,
                 edges: map<Edge, Option<int>>, u: Loc, k: nat)
    requires WellFormed(p) && |reachableBBs| == |p| && Finished(p, reachableBBs, visited, nodes, edges)
    requires IsLoc(p, u) && !At(p, u).Call? && !At(p, u).Intrinsic?
    requires k < |NextInsts(p, u)| && IsLoc(p, NextInsts(p, u)[k])
    ensures var e := Edge(IntraCF, Intra(u), NodeOf(p, NextInsts(p, u)[k])); e in edges && edges[e] == LabelOf(p, e)
  {
    hide WellFormed, NoIntrinsicLoops, Formed, NextInsts, NodesOk, LabelOf, EdgeExpected;
    WellFormedIsFormed(p);
    NextInstsIff(p, u, NextInsts(p, u)[k]);
    EdgeIffFollows(p, reachableBBs, visited, nodes, edges, u, NextInsts(p, u)[k]);
  }

  /** Of all cases only the `k`-th leads to block `b`. */
  ghost predicate OnlyCase(cases: seq<(int, nat)>, b: nat, k: nat) {
    k < |cases| && cases[k].1 == b && forall j | 0 <= j < |cases| && cases[j].1 == b :: j == k
  }

  /** With a case for `b` found before, another one for `b` makes the search fail. */
  lemma {:induction false} CaseFoundBefore(cases: seq<(int, nat)>, b: nat, x: int)
    ensures FindCaseDest(cases, b, Some(x)) ==
            if forall j | 0 <= j < |cases| :: cases[j].1 != b then Some(x) else None
  {
    if cases != [] {
      CaseFoundBefore(cases[1..], b, x);
      assert forall j | 0 < j < |cases| :: cases[j] == cases[1..][j - 1];
      assert forall j | 0 <= j < |cases| - 1 :: cases[1..][j] == cases[j + 1];
    }
  }

  /** The search finds a case exactly if it is the only one for `b`. */
  lemma {:induction false} CaseFound(cases: seq<(int, nat)>, b: nat)
    ensures forall k: nat | OnlyCase(cases, b, k) :: FindCaseDest(cases, b, None) == Some(cases[k].0)
    ensures FindCaseDest(cases, b, None).Some? ==> exists k: nat :: OnlyCase(cases, b, k)
  {
    if cases != [] {
      var rest := cases[1..];
      assert forall j | 0 < j < |cases| :: cases[j] == rest[j - 1];
      if cases[0].1 == b {
        CaseFoundBefore(rest, b, cases[0].0);
        forall k: nat | OnlyCase(cases, b, k) ensures k == 0 {}
        if forall j | 0 <= j < |rest| :: rest[j].1 != b { assert OnlyCase(cases, b, 0); }
      } else {
        CaseFound(rest, b);
        forall k: nat | OnlyCase(cases, b, k) ensures k > 0 && OnlyCase(rest, b, k - 1) {
          assert forall j | 0 <= j < |rest| :: rest[j] == cases[j + 1];
        }
        forall k: nat | OnlyCase(rest, b, k) ensures OnlyCase(cases, b, k + 1) {}
      }
    }
  }

  /** Of a switch an edge carries a case's value if that case alone leads to the block of
      its target, which is not the default block, and the value has at most 64 bits;
      every other edge carries -1. */
  lemma SwitchConditions(p: Program, reachableBBs: seq<set<nat>>, visited: set<Loc>, nodes: seq<Node>,
                         edges: map<Edge, Option<int>>, u: Loc,
                         v: Loc)
    requires WellFormed(p) && |reachableBBs| == |p| && Finished(p, reachableBBs, visited, nodes, edges) &&
             IsLoc(p, u) && At(p, u).Switch?
    requires Follows(p, u, v)
    ensures IsLoc(p, v) && BlockOf(p, u).succs != []
    ensures var e, sw, default := Edge(IntraCF, Intra(u), NodeOf(p, v)), At(p, u), BlockOf(p, u).succs[0];
      && e in edges
      && (forall k: nat | OnlyCase(sw.cases, v.block, k) && v.block != default && sw.width <= 64 ::
            edges[e] == Some(sw.cases[k].0))
      && ((v.block == default || sw.width > 64 || !exists k: nat :: OnlyCase(sw.cases, v.block, k)) ==>
            edges[e] == Some(-1))
  {
    hide WellFormed, Formed, NoIntrinsicLoops, NextInsts, NodesOk, FindCaseDest, Follows, EdgeExpected;
    WellFormedIsFormed(p);
    BlockStart(p, u.fun, u.block);
    NextInstsIff(p, u, v);
    NextAreLocs(p, u);
    EdgeIffFollows(p, reachableBBs, visited, nodes, edges, u, v);
    CaseFound(At(p, u).cases, v.block);
    var i := FirstIndex(NextInsts(p, u), v);
    NextEdgeLabel(p, u, i);
  }

  lemma EntriesIff(p: Program, g: nat, u: Loc)
    requires WellFormed(p) && Defined(p, g)
    ensures u in EntryInsts(p, g) <==> Leads(p, Loc(g, 0, 0), u)
  {
    BlockStart(p, g, 0);
    NextInstsIff(p, Loc(g, 0, 0), u);
  }

  // ---------- the builder ----------

  /** The first instructions of function `g`, intrinsics skipped. */
  method FirstInsts(p: Program, g: nat) returns (insts: seq<Loc>)
    requires WellFormed(p) && Defined(p, g)
    ensures insts == EntryInsts(p, g) && Distinct(insts)
    ensures forall k | 0 <= k < |insts| ::
              IsLoc(p, insts[k]) && insts[k].fun == g && !At(p, insts[k]).Intrinsic?
  {
    hide WellFormed, Formed, NoIntrinsicLoops, EndsWithin, NextFrom, EntryInsts, Distinct;
    EntryList(p, g);
    var entryInst := Loc(g, 0, 0);
    insts := [entryInst];
    if At(p, entryInst).Intrinsic? {
      insts := GetNextInsts(p, entryInst, [], |AllLocs(p)|);
    }
  }

  class ICFGBuilder {
    var visited: set<Loc>
    var nodes: seq<Node>
    var edges: map<Edge, Option<int>>
    ghost var done: set<Loc>
    ghost var started: set<nat>

    constructor ()
      ensures visited == {} && nodes == [] && edges == map[] && done == {} && started == {}
    {
      visited, nodes, edges, done, started := {}, [], map[], {}, {};
    }

    /** `waiting` holds the instructions that are found but not processed yet. */
    ghost predicate Valid(p: Program, waiting: seq<Loc>)
      requires WellFormed(p)
      reads this
    {
      Inv(p, visited, done, started, {}, nodes, edges) && Waiting(visited, done, waiting)
    }

    method AddIntraBlockICFGNode(p: Program, u: Loc)
      requires IsLoc(p, u) && !At(p, u).Call? && Intra(u) !in nodes
      modifies `nodes
      ensures nodes == old(nodes) + BlockNodes(p, u)
    {
      nodes := nodes + [Intra(u)];
    }

    method AddInterBlockICFGNode(p: Program, u: Loc)
      requires IsLoc(p, u) && At(p, u).Call? && CallNode(u) !in nodes && RetNode(u) !in nodes
      modifies `nodes, `edges
      ensures nodes == old(nodes) + BlockNodes(p, u) && edges == BlockEdges(p, u, old(edges))
    {
      nodes := nodes + [CallNode(u)];
      assert RetNode(u) !in nodes;
      nodes := nodes + [RetNode(u)];
      AddICFGInterEdges(p, u);
    }

    method AddICFGInterEdges(p: Program, u: Loc)
      requires IsLoc(p, u) && At(p, u).Call?
      modifies `edges
      ensures edges == InterEdges(p, u, old(edges))
    {
      match Entered(p, u)
      case None =>
        edges := AddEdge(edges, Edge(IntraCF, CallNode(u), RetNode(u)), None);
      case Some(g) =>
        edges := AddEdge(edges, Edge(CallCF, CallNode(u), FunEntry(g)), None);
        edges := AddEdge(edges, Edge(RetCF, FunExit(g), RetNode(u)), None);
    }

    /** The instruction is marked, gets its node, and waits to be processed. None of
        the checks against a second node can fail. */
    method Visit(p: Program, u: Loc, worklist: FIFOWorkList<Loc>, ghost extra: set<Edge>)
      requires WellFormed(p) && Inv(p, visited, done, started, extra, nodes, edges)
      requires IsLoc(p, u) && u !in visited && worklist.Valid() && u !in worklist.data_list
      modifies `visited, `nodes, `edges, worklist
      ensures Inv(p, visited, done, started, extra, nodes, edges) && visited == old(visited) + {u}
      ensures worklist.Valid() && worklist.data_list == old(worklist.data_list) + [u]
    {
      hide WellFormed, NoIntrinsicLoops, Formed, Inv, BlockEdges, BlockNodes;
      WellFormedIsFormed(p);
      VisitKeeps(p, visited, done, started, extra, nodes, edges, u);
      visited := visited + {u};
      if At(p, u).Call? {
        AddInterBlockICFGNode(p, u);
      } else {
        NoBlockEdges(p, u, edges);
        AddIntraBlockICFGNode(p, u);
      }
      var added := worklist.Push(u);
    }

    method ProcessFunEntry(p: Program, g: nat, worklist: FIFOWorkList<Loc>)
      requires WellFormed(p) && Defined(p, g) && Valid(p, []) && worklist.Valid() && worklist.data_list == []
      requires g !in started && forall u | u in visited :: u.fun != g
      modifies this, worklist
      ensures worklist.Valid() && Valid(p, worklist.data_list) && done == old(done) && started == old(started) + {g}
      ensures old(visited) <= visited && OnlyAdds(p, old(visited), visited, g, {})
      ensures forall u | u in EntryInsts(p, g) :: u in visited
    {
      hide WellFormed, Inv, EntryInsts, Distinct, Waiting, EnteredSoFar, OnlyAdds, AddEdge;
      NoneWaiting(visited, done);
      var insts := FirstInsts(p, g);
      ghost var extra: set<Edge> := {};
      NothingEntered(p, g);
      var k := 0;
      while k < |insts|
        invariant k <= |insts| && done == old(done) && started == old(started)
        invariant worklist.Valid() && worklist.data_list == insts[..k] && Waiting(visited, done, insts[..k])
        invariant Inv(p, visited, done, started, extra, nodes, edges) && EnteredSoFar(p, g, k, extra)
      {
        NewEntry(visited, done, insts, k, g);
        assert insts[..k + 1] == insts[..k] + [insts[k]];
        WaitingPushed(visited, done, worklist.data_list, insts[k]);
        Visit(p, insts[k], worklist, extra);
        extra := EntryInv(p, visited, done, started, extra, nodes, edges, g, k);
        edges := AddEdge(edges, Edge(IntraCF, FunEntry(g), NodeOf(p, insts[k])), None);
        k := k + 1;
      }
      EntriesFound(p, visited, done, insts, g);
      EnteredInv(p, visited, done, started, extra, nodes, edges, g);
      started := started + {g};
    }

    /** Blocks that control cannot reach from the entry are entered at their first
        instruction, even if that is an intrinsic. */
    method ProcessUnreachableFromEntry(p: Program, g: nat, reachableBBs: set<nat>, worklist: FIFOWorkList<Loc>)
      requires WellFormed(p) && Defined(p, g) && worklist.Valid() && Valid(p, worklist.data_list)
      modifies this, worklist
      ensures worklist.Valid() && Valid(p, worklist.data_list) && done == old(done) && started == old(started)
      ensures old(visited) <= visited && OnlyAdds(p, old(visited), visited, g, Unreached(p, g, reachableBBs))
      ensures forall b: nat | b < |p[g].blocks| && b !in reachableBBs :: Loc(g, b, 0) in visited
    {
      hide WellFormed, NoIntrinsicLoops, Formed, FormedBlock, Inv, NextInsts, Waiting;
      WellFormedIsFormed(p);
      var b: nat := 0;
      while b < |p[g].blocks|
        invariant b <= |p[g].blocks|
        invariant worklist.Valid() && Valid(p, worklist.data_list) && done == old(done) && started == old(started)
        invariant old(visited) <= visited && OnlyAdds(p, old(visited), visited, g, Unreached(p, g, reachableBBs))
        invariant forall c: nat | c < b && c !in reachableBBs :: Loc(g, c, 0) in visited
      {
        var front := Loc(g, b, 0);
        if b !in reachableBBs && front !in visited {
          BlockStart(p, g, b);
          WaitingPushed(visited, done, worklist.data_list, front);
          Visit(p, front, worklist, {});
        }
        b := b + 1;
      }
    }

    /** Connects one instruction with those that follow it. */
    method ProcessInst(p: Program, u: Loc, worklist: FIFOWorkList<Loc>)
      requires WellFormed(p) && worklist.Valid() && Valid(p, [u] + worklist.data_list) && u !in worklist.data_list
      modifies this, worklist
      ensures worklist.Valid() && Valid(p, worklist.data_list) && done == old(done) + {u} && started == old(started)
      ensures old(visited) <= visited && OnlyAdds(p, old(visited), visited, u.fun, {})
    {
      hide WellFormed, Formed, NoIntrinsicLoops, EndsWithin, NextFrom, Inv, NextInsts, SoFar, Waiting, Condition,
          AllLocs;
      WaitingAreLocs(p, visited, done, started, {}, nodes, edges);
      WaitingPopped(visited, done, worklist.data_list, u);
      NextList(p, u);
      ghost var extra: set<Edge> := {};
      var srcNode := NodeOf(p, u);
      ExitInv(p, visited, done, started, nodes, edges, u);
      if At(p, u).Return? {
        edges := AddEdge(edges, Edge(IntraCF, srcNode, FunExit(u.fun)), None);
        extra := {Edge(IntraCF, srcNode, FunExit(u.fun))};
      }
      var nextInsts := GetNextInsts(p, u, [], |AllLocs(p)|);
      assert nextInsts == NextInsts(p, u);
      NextAreLocs(p, u);
      var branchID := 0;
      while branchID < |nextInsts|
        invariant branchID <= |nextInsts| && done == old(done) && started == old(started)
        invariant At(p, u).Call? || srcNode == NodeOf(p, u)
        invariant Inv(p, visited, done, started, extra, nodes, edges) && SoFar(p, u, branchID, extra)
        invariant worklist.Valid() && Waiting(visited, done + {u}, worklist.data_list) && u in visited && u !in done
        invariant forall j | 0 <= j < branchID :: nextInsts[j] in visited
        invariant old(visited) <= visited && OnlyAdds(p, old(visited), visited, u.fun, {})
      {
        var succ := nextInsts[branchID];
        if succ !in visited {
          WaitingPushed(visited, done + {u}, worklist.data_list, succ);
          Visit(p, succ, worklist, extra);
        }
        var dstNode := NodeOf(p, succ);
        if At(p, u).Call? {
          srcNode := RetNode(u);
        }
        extra := NextInv(p, visited, done, started, extra, nodes, edges, u, branchID);
        ConditionOf(p, u, succ, branchID);
        if At(p, u).CondBranch? || At(p, u).Branch? {
          assert branchID <= 1 by { AtMostTwo(p, u); }
          if At(p, u).CondBranch? {
            edges := AddEdge(edges, Edge(IntraCF, srcNode, dstNode), Some(1 - branchID));
          } else {
            edges := AddEdge(edges, Edge(IntraCF, srcNode, dstNode), None);
          }
        } else if At(p, u).Switch? {
          edges := AddEdge(edges, Edge(IntraCF, srcNode, dstNode), Condition(p, u, succ, branchID));
        } else {
          edges := AddEdge(edges, Edge(IntraCF, srcNode, dstNode), None);
        }
        branchID := branchID + 1;
      }
      FinishInv(p, visited, done, started, extra, nodes, edges, u);
      done := done + {u};
    }

    method ProcessFunBody(p: Program, g: nat, worklist: FIFOWorkList<Loc>)
      requires WellFormed(p) && worklist.Valid() && Valid(p, worklist.data_list)
      requires forall u | u in worklist.data_list :: u.fun == g
      modifies this, worklist
      ensures Valid(p, []) && started == old(started) && done == visited
      ensures old(visited) <= visited && OnlyAdds(p, old(visited), visited, g, {})
    {
      hide WellFormed, NoIntrinsicLoops, Formed, Inv, Waiting;
      WellFormedIsFormed(p);
      WaitingAreIn(visited, done, worklist.data_list, g);
      while !worklist.Empty()
        invariant worklist.Valid() && Valid(p, worklist.data_list) && started == old(started)
        invariant forall u | u in visited && u !in done :: u.fun == g
        invariant old(visited) <= visited && OnlyAdds(p, old(visited), visited, g, {})
        decreases |AllLocs(p) - done|
      {
        ghost var waiting := worklist.data_list;
        var u := worklist.Pop();
        assert waiting == [u] + worklist.data_list;
        WaitingAreLocs(p, visited, done, started, {}, nodes, edges);
        WaitingPopped(visited, done, worklist.data_list, u);
        OneLess(p, done, u);
        ProcessInst(p, u, worklist);
      }
      NoneWaiting(visited, done);
    }

    /** Every return is connected with the exit already. */
    method ProcessFunExit(p: Program, g: nat)
      requires WellFormed(p) && Defined(p, g) && Valid(p, []) && forall b: nat | b < |p[g].blocks| ::
               Covers(p, g, b, visited)
      modifies this
      ensures edges == old(edges) && nodes == old(nodes) && visited == old(visited) && done == old(done) &&
              started == old(started)
    {
      var b: nat := 0;
      while b < |p[g].blocks|
        invariant edges == old(edges) && nodes == old(nodes) && visited == old(visited) && done == old(done) &&
                  started == old(started)
      {
        var k: nat := 0;
        while k < |p[g].blocks[b].insts|
          invariant edges == old(edges) && nodes == old(nodes) && visited == old(visited) && done == old(done) &&
                    started == old(started)
        {
          var u := Loc(g, b, k);
          assert Covers(p, g, b, visited);
          if At(p, u).Return? {
            ReturnConnected(p, visited, done, started, nodes, edges, u);
            edges := AddEdge(edges, Edge(IntraCF, NodeOf(p, u), FunExit(g)), None);
          }
          k := k + 1;
        }
        b := b + 1;
      }
    }

    method CheckICFGNodesVisited(p: Program, g: nat)
      requires WellFormed(p) && Defined(p, g) && Valid(p, []) && forall b: nat | b < |p[g].blocks| ::
               Covers(p, g, b, visited)
    {
      var b: nat := 0;
      while b < |p[g].blocks| {
        var k: nat := 0;
        while k < |p[g].blocks[b].insts| {
          var u := Loc(g, b, k);
          if !At(p, u).Intrinsic? {
            assert Covers(p, g, b, visited);
            assert u in visited;
            assert NodeExpected(p, visited, NodeOf(p, u));
            assert NodeOf(p, u) in nodes;
          }
          k := k + 1;
        }
        b := b + 1;
      }
    }

    method AddEntriesAndExits(p: Program)
      requires nodes == []
      modifies `nodes
      ensures NodesOk(p, {}, nodes)
    {
      var g: nat := 0;
      while g < |p|
        invariant g <= |p| && EntriesBelow(p, g, nodes)
      {
        if p[g].blocks != [] {
          nodes := nodes + [FunEntry(g)];
          nodes := nodes + [FunExit(g)];
        }
        g := g + 1;
      }
    }

    /** One function: its entry, its unreachable blocks, its body, its exit. */
    method BuildFunction(p: Program, g: nat, reachableBBs: set<nat>)
      requires WellFormed(p) && Defined(p, g) && Valid(p, [])
      requires forall b | b in reachableBBs :: ReachableBlock(p, g, b)
      requires g !in started && forall u | u in visited :: u.fun != g
      modifies this
      ensures Valid(p, []) && started == old(started) + {g}
      ensures old(visited) <= visited && OnlyAdds(p, old(visited), visited, g, Unreached(p, g, reachableBBs))
      ensures forall b: nat | b < |p[g].blocks| :: Covers(p, g, b, visited)
      ensures forall b: nat | b < |p[g].blocks| && b !in reachableBBs :: Loc(g, b, 0) in visited
    {
      hide WellFormed, NoIntrinsicLoops, Formed, Inv, Waiting, Covers, EntryInsts;
      WellFormedIsFormed(p);
      NoneWaiting(visited, done);
      var worklist := new FIFOWorkList<Loc>();
      ProcessFunEntry(p, g, worklist);
      ProcessUnreachableFromEntry(p, g, reachableBBs, worklist);
      NewlyWaiting(p, visited, done, worklist.data_list, g, Unreached(p, g, reachableBBs));
      ProcessFunBody(p, g, worklist);
      NoneWaiting(visited, done);
      AllCovered(p, g, reachableBBs, visited, started, nodes, edges);
      ProcessFunExit(p, g);
      CheckICFGNodesVisited(p, g);
    }

    /** The graph of the whole program. */
    method Build(p: Program, reachableBBs: seq<set<nat>>)
      requires WellFormed(p) && |reachableBBs| == |p|
      requires forall g: nat, b | g < |p| && b in reachableBBs[g] :: ReachableBlock(p, g, b)
      requires visited == {} && nodes == [] && edges == map[] && done == {} && started == {}
      modifies this
      ensures Finished(p, reachableBBs, visited, nodes, edges)
    {
      hide WellFormed, NoIntrinsicLoops, Formed, Covers, NodesOk, EntryInsts, Inv, Waiting;
      WellFormedIsFormed(p);
      AddEntriesAndExits(p);
      EmptyInv(p, nodes);
      var g: nat := 0;
      while g < |p|
        invariant g <= |p| && Valid(p, []) && started == DefinedBelow(p, g)
        invariant forall u | u in visited :: u.fun < g && Found(p, reachableBBs, u)
        invariant CoversBelow(p, g, visited) && FrontsBelow(p, reachableBBs, g, visited)
      {
        ghost var before := visited;
        if p[g].blocks != [] {
          BuildFunction(p, g, reachableBBs[g]);
        }
        MoreCovered(p, reachableBBs, g, before, visited);
        g := g + 1;
      }
      NoneWaiting(visited, done);
      AllFinished(p, reachableBBs, visited, nodes, edges);
    }
  }

  ghost predicate EntriesBelow(p: Program, g: nat, nodes: seq<Node>)
    requires g <= |p|
  {
    Distinct(nodes) && forall n :: n in nodes <==> (n.FunEntry? || n.FunExit?) && n.fun < g && Defined(p, n.fun)
  }

  ghost function DefinedBelow(p: Program, g: nat): set<nat>
    requires g <= |p|
  {
    set h: nat | h < g && Defined(p, h)
  }

  ghost predicate CoversBelow(p: Program, g: nat, visited: set<Loc>) {
    forall h: nat, b: nat | h < g && IsBlock(p, h, b) :: Covers(p, h, b, visited)
  }

  lemma EmptyInv(p: Program, nodes: seq<Node>)
    requires WellFormed(p) && NodesOk(p, {}, nodes)
    ensures Inv(p, {}, {}, {}, {}, nodes, map[]) && Waiting({}, {}, [])
  {
  }

  /** The fronts of unreachable blocks of the first `g` functions are found. */
  ghost predicate FrontsBelow(p: Program, reachableBBs: seq<set<nat>>, g: nat, visited: set<Loc>)
    requires |reachableBBs| == |p|
  {
    forall h: nat, b: nat | h < g && IsBlock(p, h, b) && b !in reachableBBs[h] :: Loc(h, b, 0) in visited
  }

  lemma MoreCovered(p: Program, reachableBBs: seq<set<nat>>, g: nat, before: set<Loc>, visited: set<Loc>)
    requires |reachableBBs| == |p| && g < |p| && before <= visited && CoversBelow(p, g, before)
    requires FrontsBelow(p, reachableBBs, g, before)
    requires p[g].blocks != [] ==> forall b: nat | b < |p[g].blocks| :: Covers(p, g, b, visited)
    requires forall b: nat | b < |p[g].blocks| && b !in reachableBBs[g] :: Loc(g, b, 0) in visited
    ensures CoversBelow(p, g + 1, visited) && FrontsBelow(p, reachableBBs, g + 1, visited)
  {
  }

  lemma AllFinished(p: Program, reachableBBs: seq<set<nat>>, visited: set<Loc>, nodes: seq<Node>,
                    edges: map<Edge, Option<int>>)
    requires WellFormed(p) && Inv(p, visited, visited, DefinedBelow(p, |p|), {}, nodes, edges)
    requires |reachableBBs| == |p| && CoversBelow(p, |p|, visited) && FrontsBelow(p, reachableBBs, |p|, visited)
    requires forall u | u in visited :: Found(p, reachableBBs, u)
    ensures Finished(p, reachableBBs, visited, nodes, edges)
  {
    hide NodesOk, EdgesOk, WellFormed;
    forall u | Found(p, reachableBBs, u) ensures u in visited {
      if At(p, u).Intrinsic? { assert u == Loc(u.fun, u.block, 0); } else { assert Covers(p, u.fun, u.block, visited); }
    }
  }

  lemma NewlyWaiting(p: Program, visited: set<Loc>, done: set<Loc>, waiting: seq<Loc>, g: nat, fronts: set<nat>)
    requires Waiting(visited, done, waiting) && OnlyAdds(p, done, visited, g, fronts)
    ensures forall u | u in waiting :: u.fun == g
  {
  }

  /** Every block is entered from the entry or as an unreachable one. */
  lemma AllCovered(p: Program, g: nat, reachableBBs: set<nat>, visited: set<Loc>, started: set<nat>, nodes: seq<Node>,
                   edges: map<Edge, Option<int>>)
    requires WellFormed(p) && Inv(p, visited, visited, started, {}, nodes, edges) && Defined(p, g)
    requires forall u | u in EntryInsts(p, g) :: u in visited
    requires forall b | b in reachableBBs :: ReachableBlock(p, g, b)
    requires forall b: nat | b < |p[g].blocks| && b !in reachableBBs :: Loc(g, b, 0) in visited
    ensures forall b: nat | b < |p[g].blocks| :: Covers(p, g, b, visited)
  {
    assert FollowClosed(p, visited);
    hide WellFormed, NoIntrinsicLoops, Formed, Inv, Covers, EntryInsts, FollowClosed;
    WellFormedIsFormed(p);
    forall b: nat | b < |p[g].blocks| ensures Covers(p, g, b, visited) {
      if b in reachableBBs {
        var path: seq<nat> :| BlockPath(p, g, b, path);
        ReachableCovered(p, g, b, path, visited);
      } else {
        BlockCovered(p, g, b, visited);
      }
    }
  }

  lemma OneLess(p: Program, done: set<Loc>, u: Loc)
    requires IsLoc(p, u) && u !in done
    ensures |AllLocs(p) - (done + {u})| < |AllLocs(p) - done|
  {
    assert AllLocs(p) - done == (AllLocs(p) - (done + {u})) + {u};
  }

  lemma WaitingAreLocs(p: Program, visited: set<Loc>, done: set<Loc>, started: set<nat>, extra: set<Edge>,
                       nodes: seq<Node>, edges: map<Edge, Option<int>>)
    requires WellFormed(p) && Inv(p, visited, done, started, extra, nodes, edges)
    ensures done <= visited && forall u | u in visited :: IsLoc(p, u)
  {
  }

  lemma WaitingPopped(visited: set<Loc>, done: set<Loc>, waiting: seq<Loc>, u: Loc)
    requires Waiting(visited, done, [u] + waiting) && u !in waiting
    ensures Waiting(visited, done + {u}, waiting) && u in visited && u !in done
  {
  }

  lemma WaitingPushed(visited: set<Loc>, done: set<Loc>, waiting: seq<Loc>, u: Loc)
    requires Waiting(visited, done, waiting) && u !in visited
    ensures u !in waiting && Waiting(visited + {u}, done, waiting + [u])
  {
  }

  lemma WaitingAreIn(visited: set<Loc>, done: set<Loc>, waiting: seq<Loc>, g: nat)
    requires Waiting(visited, done, waiting) && forall u | u in waiting :: u.fun == g
    ensures forall u | u in visited && u !in done :: u.fun == g
  {
  }

  lemma NoneWaiting(visited: set<Loc>, done: set<Loc>)
    requires Waiting(visited, done, [])
    ensures visited == done
  {
  }

  lemma ConditionOf(p: Program, u: Loc, v: Loc, k: nat)
    requires Formed(p) && IsLoc(p, u)
    ensures At(p, u).CondBranch? ==> Condition(p, u, v, k) == Some(1 - k)
    ensures !At(p, u).CondBranch? && !At(p, u).Switch? ==> Condition(p, u, v, k) == None
  {
  }

  lemma AtMostTwo(p: Program, u: Loc)
    requires WellFormed(p) && IsLoc(p, u) && (At(p, u).CondBranch? || At(p, u).Branch?)
    ensures |NextInsts(p, u)| <= 2
  {
  }

  lemma WellFormedIsFormed(p: Program)
    requires WellFormed(p)
    ensures Formed(p) && NoIntrinsicLoops(p)
  {
  }

  /** What the search for the next instructions returns. */
  lemma NextList(p: Program, u: Loc)
    requires WellFormed(p) && IsLoc(p, u)
    ensures Formed(p) && NoIntrinsicLoops(p) && EndsWithin(p, u, |AllLocs(p)|)
    ensures [] + NextFrom(p, u, |AllLocs(p)|) == NextInsts(p, u)
  {
    EndsSoon(p, u);
  }

  lemma ExitInv(p: Program, visited: set<Loc>, done: set<Loc>, started: set<nat>, nodes: seq<Node>,
                edges: map<Edge, Option<int>>, u: Loc)
    requires WellFormed(p) && Inv(p, visited, done, started, {}, nodes, edges) && u in visited && u !in done &&
             IsLoc(p, u)
    ensures if At(p, u).Return? then
              var e := Edge(IntraCF, NodeOf(p, u), FunExit(u.fun));
              Inv(p, visited, done, started, {e}, nodes, AddEdge(edges, e, None)) && SoFar(p, u, 0, {e})
            else SoFar(p, u, 0, {})
  {
    hide WellFormed, NoIntrinsicLoops, Formed, NextInsts, NodesOk;
    WellFormedIsFormed(p);
  }

  lemma NextInv(p: Program, visited: set<Loc>, done: set<Loc>, started: set<nat>, extra: set<Edge>,
                nodes: seq<Node>, edges: map<Edge, Option<int>>, u: Loc, k: nat) returns (extra': set<Edge>)
    requires WellFormed(p) && Inv(p, visited, done, started, extra, nodes, edges) && u in visited && u !in done &&
             IsLoc(p, u)
    requires k < |NextInsts(p, u)| && SoFar(p, u, k, extra) && IsLoc(p, NextInsts(p, u)[k])
    ensures SoFar(p, u, k + 1, extra')
    ensures Inv(p, visited, done, started, extra', nodes,
                AddEdge(edges, Edge(IntraCF, SourceOf(p, u), NodeOf(p, NextInsts(p, u)[k])),
                            Condition(p, u, NextInsts(p, u)[k], k)))
  {
    hide WellFormed, NoIntrinsicLoops, Formed, NextInsts, NodesOk, EdgesOk, SoFar, Condition;
    WellFormedIsFormed(p);
    extra' := NextEdgeKeeps(p, visited, done, started, extra, edges, u, k);
  }

  lemma FinishInv(p: Program, visited: set<Loc>, done: set<Loc>, started: set<nat>, extra: set<Edge>,
                  nodes: seq<Node>, edges: map<Edge, Option<int>>, u: Loc)
    requires WellFormed(p) && Inv(p, visited, done, started, extra, nodes, edges) && u in visited && u !in done &&
             IsLoc(p, u)
    requires SoFar(p, u, |NextInsts(p, u)|, extra) && forall j | 0 <= j < |NextInsts(p, u)| ::
             NextInsts(p, u)[j] in visited
    ensures Inv(p, visited, done + {u}, started, {}, nodes, edges)
  {
    hide WellFormed, NoIntrinsicLoops, Formed, NextInsts, NodesOk, EdgesOk, SoFar;
    WellFormedIsFormed(p);
    FinishKeeps(p, visited, done, started, extra, edges, u);
  }

  lemma ReturnConnected(p: Program, visited: set<Loc>, done: set<Loc>, started: set<nat>, nodes: seq<Node>,
                        edges: map<Edge, Option<int>>, u: Loc)
    requires WellFormed(p) && Inv(p, visited, done, started, {}, nodes, edges) && Waiting(visited, done, [])
    requires u in visited && IsLoc(p, u) && At(p, u).Return?
    ensures Edge(IntraCF, NodeOf(p, u), FunExit(u.fun)) in edges
  {
  }

  /** Between `before` and `after` only instructions of `g` were found, and of intrinsics
      only those at the front of one of the blocks `fronts`. */
  ghost predicate OnlyAdds(p: Program, before: set<Loc>, after: set<Loc>, g: nat, fronts: set<nat>) {
    forall u | u in after && u !in before ::
      u.fun == g && IsLoc(p, u) && (At(p, u).Intrinsic? ==> u.idx == 0 && u.block in fronts)
  }

  ghost function Unreached(p: Program, g: nat, reachableBBs: set<nat>): set<nat>
    requires g < |p|
  {
    set b: nat | b < |p[g].blocks| && b !in reachableBBs
  }

  /** What the search for the first instructions returns. */
  lemma EntryList(p: Program, g: nat)
    requires WellFormed(p) && Defined(p, g)
    ensures Formed(p) && NoIntrinsicLoops(p) && IsLoc(p, Loc(g, 0, 0)) && EndsWithin(p, Loc(g, 0, 0), |AllLocs(p)|)
    ensures EntryInsts(p, g) == if At(p, Loc(g, 0, 0)).Intrinsic? then [] + NextFrom(p, Loc(g, 0, 0), |AllLocs(p)|)
                                else [Loc(g, 0, 0)]
    ensures Distinct(EntryInsts(p, g))
    ensures forall k | 0 <= k < |EntryInsts(p, g)| ::
              var v := EntryInsts(p, g)[k]; IsLoc(p, v) && v.fun == g && !At(p, v).Intrinsic?
  {
    BlockStart(p, g, 0);
    EndsSoon(p, Loc(g, 0, 0));
    EntriesAreLocs(p, g);
  }

  lemma NewEntry(visited: set<Loc>, done: set<Loc>, insts: seq<Loc>, k: nat, g: nat)
    requires Distinct(insts) && k < |insts| && Waiting(visited, done, insts[..k])
    requires insts[k].fun == g && forall u | u in done :: u.fun != g
    ensures insts[k] !in visited
  {
  }

  lemma EntriesFound(p: Program, visited: set<Loc>, done: set<Loc>, insts: seq<Loc>, g: nat)
    requires Waiting(visited, done, insts[..|insts|])
    requires forall k | 0 <= k < |insts| :: insts[k].fun == g && IsLoc(p, insts[k]) && !At(p, insts[k]).Intrinsic?
    ensures done <= visited && OnlyAdds(p, done, visited, g, {}) && forall u | u in insts :: u in visited
  {
    assert insts[..|insts|] == insts;
  }

  lemma NothingEntered(p: Program, g: nat)
    requires WellFormed(p) && Defined(p, g)
    ensures EnteredSoFar(p, g, 0, {})
  {
  }

  lemma EntryInv(p: Program, visited: set<Loc>, done: set<Loc>, started: set<nat>, extra: set<Edge>, nodes: seq<Node>,
                 edges: map<Edge, Option<int>>, g: nat, k: nat) returns (extra': set<Edge>)
    requires WellFormed(p) && Defined(p, g) && Inv(p, visited, done, started, extra, nodes, edges) && g !in started
    requires k < |EntryInsts(p, g)| && EnteredSoFar(p, g, k, extra) && IsLoc(p, EntryInsts(p, g)[k])
    ensures EnteredSoFar(p, g, k + 1, extra')
    ensures Inv(p, visited, done, started, extra', nodes,
                AddEdge(edges, Edge(IntraCF, FunEntry(g), NodeOf(p, EntryInsts(p, g)[k])), None))
  {
    hide NodesOk, EdgesOk, WellFormed, NextInsts, EntryInsts, EnteredSoFar;
    extra' := EntryKeeps(p, visited, done, started, extra, edges, g, k);
  }

  lemma EnteredInv(p: Program, visited: set<Loc>, done: set<Loc>, started: set<nat>, extra: set<Edge>,
                   nodes: seq<Node>, edges: map<Edge, Option<int>>, g: nat)
    requires WellFormed(p) && Defined(p, g) && Inv(p, visited, done, started, extra, nodes, edges) && g !in started
    requires EnteredSoFar(p, g, |EntryInsts(p, g)|, extra)
    ensures Inv(p, visited, done, started + {g}, {}, nodes, edges)
  {
    hide NodesOk, EdgesOk, WellFormed, NextInsts, EntryInsts, EnteredSoFar;
    EnteredKeeps(p, visited, done, started, extra, edges, g);
  }

  lemma NoBlockEdges(p: Program, u: Loc, edges: map<Edge, Option<int>>)
    requires IsLoc(p, u) && !At(p, u).Call?
    ensures BlockEdges(p, u, edges) == edges
  {
  }

  ghost predicate Waiting(visited: set<Loc>, done: set<Loc>, waiting: seq<Loc>) {
    && done <= visited && (forall u | u in visited :: u in done || u in waiting)
    && forall u | u in waiting :: u in visited && u !in done
  }
}
