/** The demand-driven value-flow solver: a query is answered by walking the
    value-flow graph backwards, caching a points-to set per item, and running
    the dependents of an item again whenever its cache grows. */
module DDASolver {
  import opened ValueFlow
  import opened SolverState

  /** An answer never exceeds the least solution at the definition of `id`, an
      in-budget answer is exactly that, and a large enough budget is never exceeded. */
  ghost predicate AnswerSound(g: Graph, id: Id, budget: nat, pts: set<Id>, inBudget: bool)
    requires g.WellFormed()
  {
    g.DefinedPointer(id) &&
    var exact := Get(Least(g), Item(g.def[id], id));
    && pts <= exact
    && (inBudget ==> pts == exact)
    && (EnoughSteps(g) <= budget ==> inBudget)
  }

  class DDAVFSolver {
    const g: Graph

    var backwardVisited: set<Item>
    var dpmToTLCPtSetMap: map<Item, set<Id>>
    var dpmToADCPtSetMap: map<Item, set<Id>>
    var locToDpmSetMap: map<NodeId, set<Item>>
    var dpmToloadDpmMap: map<Item, Item>
    var loadToPTCVarMap: map<Item, Id>
    var outOfBudgetDpms: set<Item>
    var outOfBudgetQuery: bool
    var numOfStep: nat
    var maxBudget: nat

    constructor (graph: Graph)
      requires graph.WellFormed()
      ensures g == graph && Ready() && backwardVisited == {} && locToDpmSetMap == map[] && !outOfBudgetQuery
    {
      g := graph;
      backwardVisited := {};
      dpmToTLCPtSetMap, dpmToADCPtSetMap := map[], map[];
      locToDpmSetMap := map[];
      dpmToloadDpmMap, loadToPTCVarMap := map[], map[];
      outOfBudgetDpms := {};
      outOfBudgetQuery, numOfStep, maxBudget := false, 0, 0;
    }

    // ---------- abstraction ----------

    ghost function Recorded(): set<Item>
      reads this
    {
      set n, x | n in locToDpmSetMap && x in locToDpmSetMap[n] :: x
    }

    ghost function Cached(x: Item): set<Id>
      reads this
    {
      Get(if g.IsTopLevel(x.loc) then dpmToTLCPtSetMap else dpmToADCPtSetMap, x)
    }

    ghost function Snap(): State
      reads this
    {
      State(backwardVisited, Recorded(), map x | x in g.Items() :: Cached(x),
            dpmToloadDpmMap, loadToPTCVarMap, outOfBudgetQuery, numOfStep, maxBudget)
    }

    ghost predicate Filed()
      reads this
    {
      && g.WellFormed() && outOfBudgetDpms == {}
      && forall n, x | n in locToDpmSetMap && x in locToDpmSetMap[n] :: x.loc == n
    }

    /** The invariant of every moment of every query. */
    ghost predicate Ready()
      reads this
    {
      Filed() && Inv(g, Snap())
    }

    /** Holds whenever control passes between methods: what was recorded in
        this query is also marked visited. */
    ghost predicate AtCall()
      reads this
    {
      Ready() && Snap().recorded <= Snap().visited
    }

    // ---------- elementary updates ----------

    method MarkbkVisited(dpm: Item)
      requires Filed()
      modifies `backwardVisited
      ensures Filed() && Snap() == old(Snap()).(visited := old(backwardVisited) + {dpm})
    {
      hide Graph.WellFormed;
      backwardVisited := backwardVisited + {dpm};
    }

    method ClearbkVisited(dpm: Item)
      requires Filed()
      requires dpm in backwardVisited   // asserted by the source
      modifies `backwardVisited
      ensures Filed() && Snap() == old(Snap()).(visited := old(backwardVisited) - {dpm})
    {
      hide Graph.WellFormed;
      backwardVisited := backwardVisited - {dpm};
    }

    method AddDpmToLoc(dpm: Item)
      requires Filed()
      modifies `locToDpmSetMap
      ensures Filed() && Snap() == old(Snap()).(recorded := old(Snap()).recorded + {dpm})
    {
      hide Graph.WellFormed;
      var there := if dpm.loc in locToDpmSetMap then locToDpmSetMap[dpm.loc] else {};
      locToDpmSetMap := locToDpmSetMap[dpm.loc := there + {dpm}];
      forall x | x in Recorded() ensures x in old(Snap()).recorded + {dpm} {
        assert x in locToDpmSetMap[x.loc];
      }
      forall x | x in old(Snap()).recorded + {dpm} ensures x in Recorded() {
        assert x in locToDpmSetMap[x.loc];
      }
      assert Recorded() == old(Snap()).recorded + {dpm};
    }

    method AddLoadDpmAndCVar(dpm: Item, loadDpm: Item, loadVar: Id)
      requires Filed()
      modifies `dpmToloadDpmMap, `loadToPTCVarMap
      ensures Filed() && Snap() == NoteLoad(old(Snap()), dpm, loadDpm, loadVar)
    {
      hide Graph.WellFormed;
      loadToPTCVarMap := loadToPTCVarMap[dpm := loadVar];
      dpmToloadDpmMap := dpmToloadDpmMap[dpm := loadDpm];
    }

    /** The source asserts the entry exists; callers prove it. */
    method GetLoadDpm(dpm: Item) returns (r: Item)
      requires dpm in Snap().loadDpm
      ensures r == Snap().loadDpm[dpm]
    {
      r := dpmToloadDpmMap[dpm];
    }

    method GetLoadCVar(dpm: Item) returns (r: Id)
      requires dpm in Snap().loadVar
      ensures r == Snap().loadVar[dpm]
    {
      r := loadToPTCVarMap[dpm];
    }

    method GetCachedPointsTo(dpm: Item) returns (r: set<Id>)
      ensures r == Cached(dpm)
    {
      r := Get(if g.IsTopLevel(dpm.loc) then dpmToTLCPtSetMap else dpmToADCPtSetMap, dpm);
    }

    method UnionDDAPts(dpm: Item, targetPts: set<Id>) returns (changed: bool)
      requires Filed() && dpm in g.Items()
      modifies `dpmToTLCPtSetMap, `dpmToADCPtSetMap
      ensures Filed() && Snap() == Grow(old(Snap()), dpm, targetPts)
      ensures changed == !(targetPts <= old(Cached(dpm)))
    {
      hide Graph.WellFormed;
      var before := GetCachedPointsTo(dpm);
      changed := !(targetPts <= before);
      if g.IsTopLevel(dpm.loc) {
        dpmToTLCPtSetMap := dpmToTLCPtSetMap[dpm := before + targetPts];
      } else {
        dpmToADCPtSetMap := dpmToADCPtSetMap[dpm := before + targetPts];
      }
      assert Snap().pts == Grow(old(Snap()), dpm, targetPts).pts;
    }

    method TestOutOfBudget(dpm: Item) returns (r: bool)
      requires Filed()
      modifies `outOfBudgetQuery, `numOfStep
      ensures Filed() && Snap() == Spend(old(Snap())) && r == outOfBudgetQuery
      ensures if old(outOfBudgetQuery) then outOfBudgetQuery && numOfStep == old(numOfStep)
              else numOfStep == old(numOfStep) + 1 && outOfBudgetQuery == (numOfStep > maxBudget)
    {
      hide Graph.WellFormed;
      if outOfBudgetQuery { return true; }
      numOfStep := numOfStep + 1;
      if numOfStep > maxBudget { outOfBudgetQuery := true; }
      r := dpm in outOfBudgetDpms || outOfBudgetQuery;
    }

    // ---------- the mutually recursive walk ----------

    method FindPT(dpm: Item) returns (r: set<Id>)
      requires Ready() && dpm in g.Items() && Snap().recorded <= Snap().visited + {dpm}
      requires g.IsTopLevel(dpm.loc) || dpm in Snap().loadVar
      modifies this
      ensures AtCall() && Step(g, old(Snap()), Snap())
      ensures dpm in Snap().visited && r == Get(Snap().pts, dpm)
      ensures dpm !in old(Snap()).visited ==> Snap().outOfBudget || Done(g, Snap(), dpm)
      ensures old(outOfBudgetQuery) ==>
                Snap() == if dpm in old(Snap()).visited then old(Snap()) else Mark(old(Snap()), dpm)
      decreases Missing(g, Snap()), Unvisited(g, Snap()), 0
    {
      hide Credit, Inv, Done, Settled, Missing, Graph.WellFormed;
      ghost var s := Snap();
      if dpm in backwardVisited {
        StepReflexive(g, s);
        r := GetCachedPointsTo(dpm);
        return;
      }
      MarkKeeps(g, s, dpm);
      MarkbkVisited(dpm);
      AddDpmToLoc(dpm);
      ghost var marked := Snap();
      assert marked == Mark(s, dpm);
      SpendKeeps(g, marked);
      var outOfBudget := TestOutOfBudget(dpm);
      ghost var t := Snap();
      StepReflexive(g, t);
      if !outOfBudget {
        var pts := HandleSingleStatement(dpm);
        ghost var u := Snap();
        MissingShrinks(g, t, u);
        UpdateCachedPointsTo(dpm, pts);
        StepTransitive(g, t, u, Snap());
      }
      VisitIsStep(g, s, dpm, Snap());
      r := GetCachedPointsTo(dpm);
    }

    method HandleSingleStatement(dpm: Item) returns (pts: set<Id>)
      requires AtCall() && dpm in Snap().recorded
      modifies this
      ensures AtCall() && Step(g, old(Snap()), Snap())
      ensures dpm.loc in g.stmts && Evaluated(g, Snap(), dpm, pts)
      decreases Missing(g, Snap()), Unvisited(g, Snap()), 5
    {
      hide Snap, Credit, Inv, Settled, Missing, Done, Step, Collecting, Evaluated;
      ghost var s := Snap();
      RecordedAreItems(g, s);
      ResolveFunPtr(dpm);
      ghost var t := Snap();
      StepGrows(g, s, t);
      StepKeeps(g, s, t, dpm);
      StepReflexive(g, t);
      match g.stmts[dpm.loc] {
        case Addr(obj) =>
          pts := {obj};
          ConstantResult(g, t, dpm, pts);
        case Copy =>
          pts := BacktraceAlongDirectVF({}, dpm);
          CopyResult(g, Snap(), dpm, pts);
        case Gep =>
          var gepPts := BacktraceAlongDirectVF({}, dpm);
          pts := g.gep(dpm.loc, gepPts);
          GepResult(g, Snap(), dpm, gepPts);
        case Load(dstIsPointer, _) =>
          if dstIsPointer {
            pts := HandleLoad(dpm);
          } else {
            pts := {};
            ConstantResult(g, t, dpm, pts);
          }
        case Store(srcIsPointer, _, _) =>
          if srcIsPointer {
            pts := HandleStore(dpm);
          } else {
            pts := {};
            ConstantResult(g, t, dpm, pts);
          }
        case MemRegion =>
          pts := BacktraceAlongIndirectVF({}, dpm, dpm);
          MemRegionResult(g, Snap(), dpm, pts);
      }
      StepTransitive(g, s, t, Snap());
    }

    /** Function pointers that may reach this call site or entry are queried
        first; with a fixed call graph their answers are not used further. */
    method ResolveFunPtr(dpm: Item)
      requires AtCall() && dpm.loc in g.stmts
      modifies this
      ensures AtCall() && Step(g, old(Snap()), Snap())
      decreases Missing(g, Snap()), Unvisited(g, Snap()), 3
    {
      hide Credit, Inv, Settled, Missing, Done;
      ghost var s := Snap();
      StepReflexive(g, s);
      var ptrs := g.funPtrs[dpm.loc];
      var k := 0;
      while k < |ptrs|
        invariant 0 <= k <= |ptrs| && AtCall() && Step(g, s, Snap())
      {
        ghost var t := Snap();
        MissingShrinks(g, s, t);
        assert g.WellFormedFunPtrs(dpm.loc) && g.DefinedPointer(ptrs[k]);
        var _ := FindPT(Item(g.def[ptrs[k]], ptrs[k]));
        StepTransitive(g, s, t, Snap());
        k := k + 1;
      }
    }

    /** One backward step: finds the item at the edge's source and adds its
        points-to set. */
    method BackwardPropDpm(pts: set<Id>, ptr: Id, oldDpm: Item, edge: Edge) returns (r: set<Id>)
      requires AtCall() && edge.src in g.stmts && ptr in g.ids
      requires edge.Direct? ==> g.IsTopLevel(edge.src)
      requires edge.Indirect? ==> oldDpm in Snap().loadVar && ptr == oldDpm.cur
      modifies this
      ensures AtCall() && Step(g, old(Snap()), Snap())
      ensures Item(edge.src, ptr) in Snap().visited && r == pts + Get(Snap().pts, Item(edge.src, ptr))
      decreases Missing(g, Snap()), Unvisited(g, Snap()), 1
    {
      hide Credit, Sound, Closed, Settled, Missing, Done;
      ghost var s := Snap();
      StepReflexive(g, s);
      var dpm := Item(edge.src, ptr);
      if edge.Indirect? {
        var loadDpm := GetLoadDpm(oldDpm);
        var loadVar := GetLoadCVar(oldDpm);
        AddLoadDpmAndCVar(dpm, loadDpm, loadVar);
        NoteLoadKeeps(g, s, dpm, loadDpm);
      }
      ghost var t := Snap();
      var found := FindPT(dpm);
      r := pts + found;
      StepTransitive(g, s, t, Snap());
    }

    method BacktraceAlongDirectVF(pts: set<Id>, dpm: Item) returns (r: set<Id>)
      requires AtCall() && dpm in Snap().recorded && dpm.loc in g.stmts
      modifies this
      ensures AtCall() && Step(g, old(Snap()), Snap())
      ensures Collecting(g, Snap(), dpm, DirectItems(g, dpm.loc), pts, r)
      decreases Missing(g, Snap()), Unvisited(g, Snap()), 2
    {
      hide Snap, Credit, Inv, Settled, Missing, Done, Step, Collecting, Gather, DependsOn;
      ghost var s := Snap();
      StepReflexive(g, s);
      r := pts;
      var edgeSet := g.inEdges[dpm.loc];
      CollectingNothing(g, s, dpm, r);
      assert DirectSources(g, edgeSet[..0]) == {};
      var k := 0;
      while k < |edgeSet|
        invariant 0 <= k <= |edgeSet| && AtCall() && Step(g, s, Snap())
        invariant Collecting(g, Snap(), dpm, DirectSources(g, edgeSet[..k]), pts, r)
      {
        var edge := edgeSet[k];
        ghost var t := Snap();
        DirectSourcesSnoc(g, edgeSet, k);
        if edge.Direct? {
          assert g.WellFormedEdges(dpm.loc);
          StepGrows(g, s, t);
          ghost var before := r;
          r := BackwardPropDpm(r, g.lhs[edge.src], dpm, edge);
          StepKeeps(g, s, t, dpm);
          DirectItemsDepend(g, dpm);
          assert forall y | y in DirectSources(g, edgeSet[..k]) :: y in DirectItems(g, dpm.loc);
          CollectingMore(g, t, Snap(), dpm, DirectSources(g, edgeSet[..k]), pts, before,
              Item(edge.src, g.lhs[edge.src]));
          StepTransitive(g, s, t, Snap());
        } else {
          assert DirectSources(g, edgeSet[..k + 1]) == DirectSources(g, edgeSet[..k]);
        }
        k := k + 1;
      }
      assert edgeSet[..k] == edgeSet;
    }

    /** `owner` is the item whose statement is being evaluated: `oldDpm` itself,
        or the load that looks for `oldDpm`'s object. */
    method BacktraceAlongIndirectVF(pts: set<Id>, oldDpm: Item, ghost owner: Item) returns (r: set<Id>)
      requires AtCall() && owner in Snap().recorded && oldDpm.loc in g.stmts && oldDpm.cur in g.ids
      requires oldDpm in Snap().loadVar
      requires owner == oldDpm || (owner.loc == oldDpm.loc && g.stmts[owner.loc].Load?)
      modifies this
      ensures AtCall() && Step(g, old(Snap()), Snap())
      ensures Collecting(g, Snap(), owner, IndirectItems(g, oldDpm.loc, oldDpm.cur), pts, r)
      decreases Missing(g, Snap()), Unvisited(g, Snap()), 2
    {
      hide Snap, Credit, Inv, Settled, Missing, Done, Step, Collecting, Gather, DependsOn;
      ghost var s := Snap();
      StepReflexive(g, s);
      r := pts;
      CollectingNothing(g, s, owner, r);
      var obj := oldDpm.cur;
      if obj in g.constObjs { return; }
      var edgeSet := g.inEdges[oldDpm.loc];
      assert IndirectSources(edgeSet[..0], obj) == {};
      var k := 0;
      while k < |edgeSet|
        invariant 0 <= k <= |edgeSet| && AtCall() && Step(g, s, Snap())
        invariant Collecting(g, Snap(), owner, IndirectSources(edgeSet[..k], obj), pts, r)
      {
        var edge := edgeSet[k];
        ghost var t := Snap();
        IndirectSourcesSnoc(edgeSet, k, obj);
        if edge.Indirect? && obj in edge.guard {
          assert g.WellFormedEdges(oldDpm.loc);
          StepGrows(g, s, t);
          StepKeeps(g, s, t, oldDpm);
          StepKeeps(g, s, t, owner);
          ghost var before := r;
          r := BackwardPropDpm(r, obj, oldDpm, edge);
          IndirectItemsDepend(g, owner, obj);
          assert forall y | y in IndirectSources(edgeSet[..k], obj) :: y in IndirectItems(g, owner.loc, obj);
          CollectingMore(g, t, Snap(), owner, IndirectSources(edgeSet[..k], obj), pts, before, Item(edge.src, obj));
          StepTransitive(g, s, t, Snap());
        } else {
          assert IndirectSources(edgeSet[..k + 1], obj) == IndirectSources(edgeSet[..k], obj);
        }
        k := k + 1;
      }
      assert edgeSet[..k] == edgeSet;
    }

    method GetDPImWithOldCond(oldDpm: Item, v: Id) returns (r: Item)
      requires AtCall() && oldDpm.loc in g.stmts
      requires g.stmts[oldDpm.loc].Store? ==> oldDpm in Snap().loadVar
      modifies this
      ensures AtCall() && Step(g, old(Snap()), Snap()) && Snap().pts == old(Snap()).pts
      ensures Missing(g, Snap()) == old(Missing(g, Snap())) && Snap().visited == old(Snap()).visited
      ensures r == Item(oldDpm.loc, v)
      ensures g.stmts[oldDpm.loc].Store? || g.stmts[oldDpm.loc].Load? ==> r in Snap().loadVar
    {
      hide Credit, Sound, Closed, Settled, Missing, Done;
      ghost var s := Snap();
      StepReflexive(g, s);
      r := Item(oldDpm.loc, v);
      if g.stmts[r.loc].Store? {
        var loadDpm := GetLoadDpm(oldDpm);
        AddLoadDpmAndCVar(r, loadDpm, v);
        NoteLoadKeeps(g, s, r, loadDpm);
      }
      if g.stmts[r.loc].Load? {
        AddLoadDpmAndCVar(r, oldDpm, v);
        NoteLoadKeeps(g, s, r, oldDpm);
      }
    }

    method StartNewPTCompFromLoadSrc(pts: set<Id>, oldDpm: Item) returns (r: set<Id>)
      requires AtCall() && oldDpm.loc in g.stmts
      requires g.stmts[oldDpm.loc].Load? && g.stmts[oldDpm.loc].dstIsPointer
      modifies this
      ensures AtCall() && Step(g, old(Snap()), Snap())
      ensures forall y | y in PointerItems(g, oldDpm.loc) ::
                y in Snap().visited && r == pts + Get(Snap().pts, y)
      decreases Missing(g, Snap()), Unvisited(g, Snap()), 2
    {
      hide Credit, Inv, Settled, Missing, Done, Step;
      var p := g.stmts[oldDpm.loc].loadSrc;
      assert g.WellFormedStmt(oldDpm.loc) && g.WellFormedEdges(oldDpm.loc);
      r := BackwardPropDpm(pts, p, oldDpm, Direct(g.def[p], oldDpm.loc));
    }

    method StartNewPTCompFromStoreDst(pts: set<Id>, oldDpm: Item) returns (r: set<Id>)
      requires AtCall() && oldDpm.loc in g.stmts
      requires g.stmts[oldDpm.loc].Store? && g.stmts[oldDpm.loc].srcIsPointer
      modifies this
      ensures AtCall() && Step(g, old(Snap()), Snap())
      ensures forall y | y in PointerItems(g, oldDpm.loc) ::
                y in Snap().visited && r == pts + Get(Snap().pts, y)
      decreases Missing(g, Snap()), Unvisited(g, Snap()), 2
    {
      hide Credit, Inv, Settled, Missing, Done, Step;
      var p := g.stmts[oldDpm.loc].storeDst;
      assert g.WellFormedStmt(oldDpm.loc) && g.WellFormedEdges(oldDpm.loc);
      r := BackwardPropDpm(pts, p, oldDpm, Direct(g.def[p], oldDpm.loc));
    }

    method BacktraceToStoreSrc(pts: set<Id>, oldDpm: Item) returns (r: set<Id>)
      requires AtCall() && oldDpm.loc in g.stmts
      requires g.stmts[oldDpm.loc].Store? && g.stmts[oldDpm.loc].srcIsPointer
      modifies this
      ensures AtCall() && Step(g, old(Snap()), Snap())
      ensures var p := g.stmts[oldDpm.loc].storeSrc;
        p in g.def && Item(g.def[p], p) in Snap().visited && r == pts + Get(Snap().pts, Item(g.def[p], p))
      decreases Missing(g, Snap()), Unvisited(g, Snap()), 2
    {
      hide Credit, Inv, Settled, Missing, Done, Step;
      var p := g.stmts[oldDpm.loc].storeSrc;
      assert g.WellFormedStmt(oldDpm.loc) && g.WellFormedEdges(oldDpm.loc);
      r := BackwardPropDpm(pts, p, oldDpm, Direct(g.def[p], oldDpm.loc));
    }

    method HandleLoad(dpm: Item) returns (pts: set<Id>)
      requires AtCall() && dpm in Snap().recorded && dpm.loc in g.stmts
      requires g.stmts[dpm.loc].Load? && g.stmts[dpm.loc].dstIsPointer
      modifies this
      ensures AtCall() && Step(g, old(Snap()), Snap()) && Evaluated(g, Snap(), dpm, pts)
      decreases Missing(g, Snap()), Unvisited(g, Snap()), 4
    {
      hide Snap, Credit, Inv, Settled, Missing, Done, Step, LoadProgress, Evaluated, Graph.WellFormed;
      ghost var s := Snap();
      var loadpts := StartNewPTCompFromLoadSrc({}, dpm);
      StepKeeps(g, s, Snap(), dpm);
      LoadProgressStarts(g, Snap(), dpm, loadpts);
      pts := {};
      var rest := loadpts;
      assert loadpts - rest == {};
      while rest != {}
        invariant rest <= loadpts && AtCall() && Step(g, s, Snap()) && dpm in Snap().recorded
        invariant LoadProgress(g, Snap(), dpm, loadpts, loadpts - rest, pts)
        decreases rest
      {
        var obj :| obj in rest;
        ghost var t := Snap();
        StepGrows(g, s, t);
        LoadProgressInIds(g, t, dpm, loadpts, loadpts - rest, pts);
        pts := CollectFromObject(dpm, obj, pts, loadpts, loadpts - rest);
        StepTransitive(g, s, t, Snap());
        assert loadpts - rest + {obj} == loadpts - (rest - {obj});
        rest := rest - {obj};
      }
      assert loadpts - rest == loadpts;
      LoadResult(g, Snap(), dpm, loadpts, pts);
    }

    /** The body of the load's loop over the objects its pointer may target. */
    method CollectFromObject(dpm: Item, obj: Id, pts: set<Id>, ghost objs: set<Id>, ghost seen: set<Id>)
        returns (r: set<Id>)
      requires AtCall() && dpm in Snap().recorded && dpm.loc in g.stmts && obj in g.ids
      requires g.stmts[dpm.loc].Load? && g.stmts[dpm.loc].dstIsPointer
      requires LoadProgress(g, Snap(), dpm, objs, seen, pts)
      modifies this
      ensures AtCall() && Step(g, old(Snap()), Snap()) && dpm in Snap().recorded
      ensures LoadProgress(g, Snap(), dpm, objs, seen + {obj}, r)
      decreases Missing(g, Snap()), Unvisited(g, Snap()), 3
    {
      hide Snap, Credit, Inv, Settled, Missing, Done, Step, LoadProgress, Collecting;
      ghost var s := Snap();
      var objDpm := GetDPImWithOldCond(dpm, obj);
      ghost var t := Snap();
      StepKeeps(g, s, t, dpm);
      LoadProgressStays(g, s, t, dpm, objs, seen, pts);
      r := BacktraceAlongIndirectVF(pts, objDpm, dpm);
      StepKeeps(g, t, Snap(), dpm);
      LoadProgressMore(g, t, Snap(), dpm, objs, seen, pts, obj, r);
      StepTransitive(g, s, t, Snap());
    }

    /** `isMustAlias` is false by default, so its branch never runs; its
        argument, the recorded load item, is still looked up. */
    method HandleStore(dpm: Item) returns (pts: set<Id>)
      requires AtCall() && dpm in Snap().recorded && dpm.loc in g.stmts
      requires g.stmts[dpm.loc].Store? && g.stmts[dpm.loc].srcIsPointer
      modifies this
      ensures AtCall() && Step(g, old(Snap()), Snap()) && Evaluated(g, Snap(), dpm, pts)
      decreases Missing(g, Snap()), Unvisited(g, Snap()), 4
    {
      hide Snap, Credit, Inv, Settled, Missing, Done, Step, StoreProgress, Evaluated, IsStrongUpdate, Graph.WellFormed;
      ghost var s := Snap();
      RecordedAreItems(g, s);
      var _ := GetLoadDpm(dpm);
      var storepts := StartNewPTCompFromStoreDst({}, dpm);
      StepKeeps(g, s, Snap(), dpm);
      StoreProgressStarts(g, Snap(), dpm, storepts);
      pts := {};
      var rest := storepts;
      assert storepts - rest == {};
      while rest != {}
        invariant rest <= storepts && AtCall() && Step(g, s, Snap()) && dpm in Snap().recorded
        invariant StoreProgress(g, Snap(), dpm, storepts, storepts - rest, pts)
        decreases rest
      {
        var obj :| obj in rest;
        ghost var t := Snap();
        StepGrows(g, s, t);
        RecordedAreItems(g, t);
        var loadVar := GetLoadCVar(dpm);
        if obj == loadVar {
          pts := CollectStored(dpm, storepts, pts, storepts - rest);
        } else {
          ghost var before := pts;
          pts := BacktraceAlongIndirectVF(pts, dpm, dpm);
          StoreProgressMore(g, t, Snap(), dpm, storepts, storepts - rest, before, obj,
                            IndirectItems(g, dpm.loc, dpm.cur), pts);
        }
        StepKeeps(g, t, Snap(), dpm);
        StepTransitive(g, s, t, Snap());
        assert storepts - rest + {obj} == storepts - (rest - {obj});
        rest := rest - {obj};
      }
      assert storepts - rest == storepts;
      StoreResult(g, Snap(), dpm, storepts, pts);
    }

    /** The body of the store's loop for the object being looked for: its stored
        value, and its old contents unless the update is strong. */
    method CollectStored(dpm: Item, storepts: set<Id>, pts: set<Id>, ghost seen: set<Id>) returns (r: set<Id>)
      requires AtCall() && dpm in Snap().recorded && dpm.loc in g.stmts
      requires g.stmts[dpm.loc].Store? && g.stmts[dpm.loc].srcIsPointer
      requires StoreProgress(g, Snap(), dpm, storepts, seen, pts)
      modifies this
      ensures AtCall() && Step(g, old(Snap()), Snap()) && dpm in Snap().recorded
      ensures StoreProgress(g, Snap(), dpm, storepts, seen + {dpm.cur}, r)
      decreases Missing(g, Snap()), Unvisited(g, Snap()), 3
    {
      hide Snap, Credit, Inv, Settled, Missing, Done, Step, StoreProgress, Collecting, IsStrongUpdate, DependsOn;
      ghost var s := Snap();
      RecordedAreItems(g, s);
      var objDpm := GetDPImWithOldCond(dpm, dpm.cur);
      ghost var t := Snap();
      StepKeeps(g, s, t, dpm);
      r := BacktraceToStoreSrc(pts, objDpm);
      ghost var u := Snap();
      ghost var stored := {Item(g.def[g.stmts[dpm.loc].storeSrc], g.stmts[dpm.loc].storeSrc)};
      CollectingOne(g, t, u, dpm, pts, r);
      StepTransitive(g, s, t, u);
      StepKeeps(g, t, u, dpm);
      if IsStrongUpdate(g, storepts) {
        StoreProgressMore(g, s, u, dpm, storepts, seen, pts, dpm.cur, stored, r);
      } else {
        StepGrows(g, s, u);
        StoredDepends(g, dpm);
        var oldDpm := GetDPImWithOldCond(dpm, dpm.cur);
        ghost var v := Snap();
        StepKeeps(g, u, v, dpm);
        CollectingStays(g, u, v, dpm, stored, pts, r);
        ghost var before := r;
        r := BacktraceAlongIndirectVF(r, oldDpm, dpm);
        CollectingBoth(g, v, Snap(), dpm, stored, IndirectItems(g, dpm.loc, dpm.cur), pts, before, r);
        StepTransitive(g, s, u, v);
        StepTransitive(g, s, v, Snap());
        StepKeeps(g, v, Snap(), dpm);
        StoreProgressMore(g, s, Snap(), dpm, storepts, seen, pts, dpm.cur,
                          stored + IndirectItems(g, dpm.loc, dpm.cur), r);
      }
    }

    method UpdateCachedPointsTo(dpm: Item, pts: set<Id>)
      requires AtCall() && dpm in Snap().recorded && dpm.loc in g.stmts
      requires Evaluated(g, Snap(), dpm, pts)
      modifies this
      ensures AtCall() && Step(g, old(Snap()), Snap())
      ensures Snap().outOfBudget || Done(g, Snap(), dpm)
      decreases Missing(g, Snap()), Unvisited(g, Snap()), 4
    {
      hide Credit, Inv, Done, Settled, Missing, Graph.WellFormed, Transfer, Covered, Revisited;
      ghost var s := Snap();
      GrowKeeps(g, s, dpm, pts);
      var changed := UnionDDAPts(dpm, pts);
      ghost var t := Snap();
      if changed {
        CreditOfGrow(g, s, t);
        ReCompute(dpm);
        GrowThenRevisit(g, s, dpm, pts, Snap());
      } else {
        GrowNothing(g, s, dpm, pts);
        StepReflexive(g, s);
      }
    }

    method ReCompute(dpm: Item)
      requires AtCall() && dpm in Snap().recorded
      modifies this
      ensures AtCall() && Moves(g, old(Snap()), Snap()) && Revisited(g, old(Snap()), dpm, Snap())
      ensures Credit(g, Snap()) <= old(Credit(g, Snap())) + Fan(g)
      decreases Missing(g, Snap()), g.Items(), 6
    {
      hide Snap, Credit, Inv, Step, Done, Missing, Transfer, Settled;
      ghost var s := Snap();
      // The call graph is fixed, so no indirect call contributes new edges.
      RecordedAreItems(g, s);
      ReComputeForEdges(dpm, [], true);
      ghost var t := Snap();
      MovesGrow(g, s, t);
      ReComputeForEdges(dpm, g.outEdges[dpm.loc], false);
      MovesTransitive(g, s, t, Snap());
      OutEdgesFit(g, dpm.loc);
    }

    method ReComputeForEdges(dpm: Item, edgeSet: seq<Edge>, indirectCall: bool)
      requires AtCall()
      modifies this
      ensures AtCall() && Moves(g, old(Snap()), Snap())
      ensures Credit(g, Snap()) <= old(Credit(g, Snap())) + Times(|edgeSet|, |g.Items()|)
      ensures EdgesDone(g, old(Snap()), Snap(), edgeSet, dpm)
      decreases Missing(g, Snap()), g.Items(), 5
    {
      hide Credit, Inv, Done, Moves, Missing, Graph.WellFormed, EdgesDone, RunAgainDone, Times;
      ghost var s := Snap();
      StepReflexive(g, s);
      NoEdgesDone(g, s, edgeSet, dpm, |g.Items()|);
      var k := 0;
      while k < |edgeSet|
        invariant 0 <= k <= |edgeSet|
        invariant AtCall() && Moves(g, s, Snap())
        invariant Credit(g, Snap()) <= Credit(g, s) + Times(k, |g.Items()|)
        invariant EdgesDone(g, s, Snap(), edgeSet[..k], dpm)
      {
        var edge := edgeSet[k];
        ghost var t := Snap();
        MovesGrow(g, s, t);
        if edge.dst in locToDpmSetMap {
          var dpmSet := locToDpmSetMap[edge.dst];
          assert forall x | x in s.recorded && x.loc == edge.dst :: x in dpmSet;
          RecordedAreItems(g, t);
          FewerCards(dpmSet, g.Items());
          RunAgain(dpm, edge, dpmSet, indirectCall);
          MovesTransitive(g, s, t, Snap());
          EdgeRunAgain(g, s, t, Snap(), edgeSet, k, dpm, dpmSet);
        } else {
          NoneToRunAgain(g, s, t, edgeSet, k, dpm);
        }
        TimesMore(k, |g.Items()|);
        k := k + 1;
      }
      assert edgeSet[..k] == edgeSet;
    }

    /** The inner loop of `ReComputeForEdges`, over a copy of the items at the
        edge's target. */
    method RunAgain(dpm: Item, edge: Edge, dpmSet: set<Item>, indirectCall: bool)
      requires AtCall() && dpmSet <= Snap().recorded
      modifies this
      ensures AtCall() && Moves(g, old(Snap()), Snap())
      ensures Credit(g, Snap()) <= old(Credit(g, Snap())) + |dpmSet|
      ensures RunAgainDone(g, Snap(), edge, dpm, dpmSet)
      decreases Missing(g, Snap()), g.Items(), 4
    {
      hide Credit, Inv, Done, Settled, Missing, Graph.WellFormed;
      ghost var s := Snap();
      StepReflexive(g, s);
      var rest := dpmSet;
      while rest != {}
        invariant rest <= dpmSet
        invariant AtCall() && Moves(g, s, Snap())
        invariant Credit(g, Snap()) + |rest| <= Credit(g, s) + |dpmSet|
        invariant RunAgainDone(g, Snap(), edge, dpm, dpmSet - rest)
        decreases rest
      {
        var dstDpm :| dstDpm in rest;
        rest := rest - {dstDpm};
        ghost var t := Snap();
        assert dpmSet - rest - {dstDpm} == dpmSet - (rest + {dstDpm});
        MissingShrinks(g, s, t);
        var isLoad := edge.dst in g.stmts && g.stmts[edge.dst].Load?;
        if !indirectCall && edge.Indirect? && !isLoad {
          if dstDpm.cur == dpm.cur {
            Revisit(dstDpm);
          } else {
            StepReflexive(g, t);
          }
        } else {
          Revisit(dstDpm);
        }
        MovesTransitive(g, s, t, Snap());
        RunAgainDoneStays(g, t, Snap(), edge, dpm, dpmSet - rest - {dstDpm}, dstDpm);
        assert dpmSet - rest == dpmSet - rest - {dstDpm} + {dstDpm};
      }
      assert dpmSet - rest == dpmSet;
    }

    /** Clears one item's mark and finds its points-to set again. */
    method Revisit(dstDpm: Item)
      requires AtCall() && dstDpm in Snap().recorded
      modifies this
      ensures AtCall() && Moves(g, old(Snap()), Snap())
      ensures Credit(g, Snap()) <= old(Credit(g, Snap())) + 1
      ensures Snap().outOfBudget || Done(g, Snap(), dstDpm)
      decreases Missing(g, Snap()), g.Items(), 3
    {
      hide Credit, Inv, Done, Settled, Missing, Graph.WellFormed;
      ghost var s := Snap();
      RecordedAreItems(g, s);
      UnmarkKeeps(g, s, dstDpm);
      ClearbkVisited(dstDpm);
      assert Snap() == Unmark(s, dstDpm);
      var _ := FindPT(dstDpm);
      RevisitMoves(g, s, dstDpm, Snap());
    }

    // ---------- queries ----------

    /** Between queries: unless the last one ran out of budget, all it recorded
        is done. */
    ghost predicate Rested()
      reads this
    {
      AtCall() && (Snap().outOfBudget || forall x | x in Snap().recorded :: Done(g, Snap(), x))
    }

    method ClearAll(dpmSet: set<Item>)
      requires Filed() && dpmSet <= backwardVisited
      modifies `backwardVisited
      ensures Filed() && backwardVisited == old(backwardVisited) - dpmSet
    {
      var rest := dpmSet;
      while rest != {}
        invariant Filed() && rest <= dpmSet && rest <= backwardVisited
        invariant backwardVisited == old(backwardVisited) - (dpmSet - rest)
        decreases rest
      {
        var dpm :| dpm in rest;
        if dpm !in outOfBudgetDpms {
          ClearbkVisited(dpm);
        }
        rest := rest - {dpm};
      }
    }

    method OOBResetVisited()
      requires Filed() && Recorded() <= backwardVisited
      modifies `backwardVisited
      ensures Filed() && backwardVisited == old(backwardVisited) - Recorded()
    {
      var locs := locToDpmSetMap.Keys;
      while locs != {}
        invariant Filed() && locs <= locToDpmSetMap.Keys
        invariant forall x :: x in backwardVisited <==>
                    x in old(backwardVisited) && (x in Recorded() ==> x.loc in locs)
        decreases locs
      {
        var loc :| loc in locs;
        forall x | x in locToDpmSetMap[loc] ensures x in backwardVisited {
          assert x in Recorded();
        }
        ClearAll(locToDpmSetMap[loc]);
        locs := locs - {loc};
        forall x | x in Recorded() && x.loc == loc ensures x in locToDpmSetMap[loc] {
        }
      }
    }

    method ResetQuery()
      requires Rested()
      modifies this
      ensures AtCall() && Snap() == Reset(old(Snap()))
      ensures AllFinal(g, Snap(), Snap().visited)
    {
      hide Credit, Inv, Done, AllFinal, Graph.WellFormed, Least;
      ghost var s := Snap();
      ResetKeeps(g, s);
      assert s.Base() == backwardVisited - Recorded();
      if outOfBudgetQuery {
        OOBResetVisited();
      }
      locToDpmSetMap := map[];
      dpmToloadDpmMap := map[];
      loadToPTCVarMap := map[];
      outOfBudgetQuery := false;
      numOfStep := 0;
      assert Snap() == Reset(s);
    }

    /** One query: the points-to set of top-level pointer `id`. An in-budget
        answer is the least solution at the pointer's definition; any answer is
        below it. The hook for a query out of budget does nothing. */
    method ComputeDDAPts(id: Id, budget: nat) returns (pts: set<Id>, inBudget: bool)
      requires Rested() && g.WellFormed() && g.DefinedPointer(id)
      modifies this
      ensures Rested()
      ensures AnswerSound(g, id, budget, pts, inBudget)
      ensures inBudget ==> AllFinal(g, Snap(), Snap().visited)
      ensures inBudget <==> numOfStep <= budget
    {
      hide Credit, EnoughSteps, Inv, Done, Step, AllFinal, Least, Graph.WellFormed;
      ResetQuery();
      ghost var reset := Snap();
      BudgetSet(g, reset, budget);
      maxBudget := budget;
      ghost var s := Snap();
      assert s == reset.(budget := budget);
      var dpm := Item(g.def[id], id);
      pts := FindPT(dpm);
      inBudget := !outOfBudgetQuery;
      QueryDone(g, s, Snap(), dpm);
    }

    /** The client's loop: the candidates are answered one after the other on
        the same caches, each with its own budget. */
    method AnswerQueries(candidates: seq<Id>, budgets: seq<nat>) returns (answers: seq<set<Id>>, inBudget: seq<bool>)
      requires Rested() && g.WellFormed() && |budgets| == |candidates|
      requires forall id | id in candidates :: g.DefinedPointer(id)
      modifies this
      ensures Rested() && |answers| == |inBudget| == |candidates|
      ensures forall k | 0 <= k < |candidates| :: AnswerSound(g, candidates[k], budgets[k], answers[k], inBudget[k])
    {
      hide Rested, AnswerSound, Graph.WellFormed, Graph.DefinedPointer;
      answers, inBudget := [], [];
      for k := 0 to |candidates|
        invariant Rested() && |answers| == |inBudget| == k
        invariant forall i | 0 <= i < k :: AnswerSound(g, candidates[i], budgets[i], answers[i], inBudget[i])
      {
        var pts, ok := ComputeDDAPts(candidates[k], budgets[k]);
        answers, inBudget := answers + [pts], inBudget + [ok];
      }
    }
  }
}
