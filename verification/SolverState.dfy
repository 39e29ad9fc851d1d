/** What the demand-driven solver's calls do to its state, as a relation on
    snapshots: caches only grow, and every recorded item ends up satisfying its
    equation unless it already violated it and nothing it reads has changed. */
module SolverState {
  import opened ValueFlow

  /** A snapshot of the solver's fields. `recorded` holds the items of
      `locToDpmSetMap`; `pts` joins the two cache maps. */
  datatype State = State(
    visited: set<Item>,
    recorded: set<Item>,
    pts: Pts,
    loadDpm: map<Item, Item>,
    loadVar: map<Item, Id>,
    outOfBudget: bool,
    steps: nat,
    budget: nat)
  {
    /** Items finished by earlier queries. */
    ghost function Base(): set<Item> {
      visited - recorded
    }

    ghost function Known(): set<Item> {
      visited + recorded
    }
  }

  /** `x` satisfies its equation and everything it reads has been visited. */
  ghost predicate Done(g: Graph, s: State, x: Item)
    requires g.WellFormed()
  {
    x.loc in g.stmts && Transfer(g, s.pts, x) <= Get(s.pts, x) && Reads(g, s.pts, x) <= s.Known()
  }

  /** An edge that makes the solver revisit `x` when the cache of `y` grows. */
  ghost predicate Triggers(g: Graph, e: Edge, y: Item, x: Item) {
    && e.dst == x.loc && x.loc in g.stmts
    && (e.Indirect? && !g.stmts[x.loc].Load? ==> x.cur == y.cur)
  }

  ghost predicate DependsOn(g: Graph, x: Item, y: Item) {
    y.loc in g.outEdges && exists e :: e in g.outEdges[y.loc] && Triggers(g, e, y, x)
  }

  ghost predicate SameInputs(g: Graph, x: Item, p: Pts, q: Pts) {
    forall y | DependsOn(g, x, y) :: Get(p, y) == Get(q, y)
  }

  /** The cached sets are supported by the equations and never exceed the least
      solution. */
  ghost predicate Sound(g: Graph, p: Pts)
    requires g.WellFormed()
  {
    && IsAssignment(g, p)
    && Below(p, Least(g))
    && forall x | x in p :: p[x] <= Transfer(g, p, x)
  }

  /** The items in `xs` satisfy their equations and read only each other. */
  ghost predicate Closed(g: Graph, p: Pts, xs: set<Item>)
    requires g.WellFormed()
  {
    forall x | x in xs ::
      x.loc in g.stmts && Transfer(g, p, x) <= Get(p, x) && Reads(g, p, x) <= xs
  }

  ghost predicate LoadsRecorded(g: Graph, s: State) {
    && s.loadVar.Keys == s.loadDpm.Keys
    && (forall x | x in s.loadVar :: s.loadVar[x] == x.cur)
    && (forall x | x in s.recorded :: g.IsTopLevel(x.loc) || x in s.loadVar)
  }

  /** Holds at every moment of every query. */
  ghost predicate Inv(g: Graph, s: State) {
    && g.WellFormed()
    && s.Known() <= g.Items()
    && Sound(g, s.pts)
    && LoadsRecorded(g, s)
    && Closed(g, s.pts, s.Base())
    && (s.outOfBudget <==> s.steps > s.budget)
  }

  /** What a call that starts in `s` may do by the time it returns in `t`, in as many
      steps as its credit allows. */
  ghost predicate Step(g: Graph, s: State, t: State)
    requires g.WellFormed()
  {
    Moves(g, s, t) && Credit(g, t) <= Credit(g, s)
  }

  ghost predicate Moves(g: Graph, s: State, t: State)
    requires g.WellFormed()
  {
    && s.budget == t.budget
    && s.visited <= t.visited
    && s.recorded <= t.recorded
    && s.Base() == t.Base()
    && Below(s.pts, t.pts)
    && (forall x | x in s.Base() :: Get(s.pts, x) == Get(t.pts, x))
    && s.loadVar.Keys <= t.loadVar.Keys
    && (s.outOfBudget ==> t.outOfBudget)
    && (!t.outOfBudget ==> Settled(g, s, t))
  }

  ghost predicate Settled(g: Graph, s: State, t: State)
    requires g.WellFormed()
  {
    forall x | x in t.recorded :: Done(g, t, x) || (x in s.recorded && SameInputs(g, x, s.pts, t.pts))
  }

  /** The part of the state that may still change: facts not yet cached. */
  ghost function Missing(g: Graph, s: State): set<(Item, Id)> {
    set x, o | x in g.Items() && o in g.ids && o !in Get(s.pts, x) :: (x, o)
  }

  ghost function Unvisited(g: Graph, s: State): set<Item> {
    g.Items() - s.visited
  }

  // ---------- how many steps a query may take ----------

  ghost function MostOutEdges(g: Graph, ns: set<NodeId>): (r: nat)
    requires ns <= g.outEdges.Keys
    ensures forall n | n in ns :: |g.outEdges[n]| <= r
  {
    if ns == {} then 0
    else
      var n :| n in ns;
      var rest := MostOutEdges(g, ns - {n});
      if |g.outEdges[n]| < rest then rest else |g.outEdges[n]|
  }

  /** One growing cache makes at most this many items run again. */
  ghost function Fan(g: Graph): nat {
    Times(MostOutEdges(g, g.outEdges.Keys), |g.Items()|)
  }

  /** The steps taken and those that may still be taken: one for each unvisited item,
      and a round of revisits for each fact not yet cached. */
  ghost function Credit(g: Graph, s: State): nat {
    s.steps + |Unvisited(g, s)| + Times(|Missing(g, s)|, Fan(g))
  }

  /** A budget that is never exceeded. */
  ghost function EnoughSteps(g: Graph): nat {
    |g.Items()| + Times(|AllFacts(g)|, Fan(g))
  }

  ghost function AllFacts(g: Graph): set<(Item, Id)> {
    set x, o | x in g.Items() && o in g.ids :: (x, o)
  }

  function Times(a: nat, b: nat): nat {
    a * b
  }

  lemma TimesMonotone(a: nat, b: nat, c: nat)
    requires a <= b
    ensures Times(a, c) <= Times(b, c)
  {
  }

  lemma TimesMore(k: nat, n: nat)
    ensures Times(k + 1, n) == Times(k, n) + n
  {
  }

  lemma FewerCards<T>(a: set<T>, b: set<T>)
    requires a <= b
    ensures |a| <= |b| && (a != b ==> |a| < |b|)
  {
    if a != b { assert |b - a| > 0 && b == a + (b - a); } else { assert a == b; }
  }

  lemma OneMoreCard<T>(a: set<T>, b: set<T>, x: T)
    requires a <= b + {x}
    ensures |a| <= |b| + 1
  {
    FewerCards(a, b + {x});
    if x in b { assert b + {x} == b; }
  }

  lemma OutEdgesFit(g: Graph, n: NodeId)
    requires n in g.outEdges
    ensures Times(|g.outEdges[n]|, |g.Items()|) <= Fan(g)
  {
    TimesMonotone(|g.outEdges[n]|, MostOutEdges(g, g.outEdges.Keys), |g.Items()|);
  }

  /** A query that has not taken a step yet. */
  lemma CreditAtStart(g: Graph, s: State)
    requires s.steps == 0
    ensures Credit(g, s) <= EnoughSteps(g)
  {
    hide Fan, Times;
    FewerCards(Unvisited(g, s), g.Items());
    FewerCards(Missing(g, s), AllFacts(g));
    TimesMonotone(|Missing(g, s)|, |AllFacts(g)|, Fan(g));
  }

  lemma CreditSame(g: Graph, s: State, t: State)
    requires s.steps == t.steps && s.visited == t.visited && s.pts == t.pts
    ensures Credit(g, s) == Credit(g, t)
  {
    assert Unvisited(g, s) == Unvisited(g, t) && Missing(g, s) == Missing(g, t);
  }

  lemma CreditOfVisit(g: Graph, s: State, t: State, x: Item)
    requires x in g.Items() && x !in s.visited && t.visited == s.visited + {x} && t.pts == s.pts &&
             t.steps <= s.steps + 1
    ensures Credit(g, t) <= Credit(g, s)
  {
    hide Fan;
    assert Missing(g, s) == Missing(g, t);
    assert Unvisited(g, s) == Unvisited(g, t) + {x} && x !in Unvisited(g, t);
  }

  lemma CreditOfUnmark(g: Graph, s: State, x: Item)
    ensures Credit(g, Unmark(s, x)) <= Credit(g, s) + 1
  {
    hide Fan;
    var t := Unmark(s, x);
    assert Missing(g, s) == Missing(g, t);
    OneMoreCard(Unvisited(g, t), Unvisited(g, s), x);
  }

  /** A growing cache pays for the revisits it causes. */
  lemma CreditOfGrow(g: Graph, s: State, t: State)
    requires s.steps == t.steps && s.visited == t.visited && Missing(g, t) < Missing(g, s)
    ensures Credit(g, t) + Fan(g) <= Credit(g, s)
  {
    hide Fan, Missing;
    FewerCards(Missing(g, t), Missing(g, s));
    TimesMonotone(|Missing(g, t)| + 1, |Missing(g, s)|, Fan(g));
    assert Times(|Missing(g, t)| + 1, Fan(g)) == Times(|Missing(g, t)|, Fan(g)) + Fan(g);
  }

  // ---------- reads are covered by revisits ----------

  lemma DirectReadDepends(g: Graph, x: Item, y: Item)
    requires g.WellFormed() && x.loc in g.stmts && Direct(y.loc, x.loc) in g.inEdges[x.loc]
    ensures DependsOn(g, x, y)
  {
  }

  lemma DirectItemsDepend(g: Graph, x: Item)
    requires g.WellFormed() && x.loc in g.stmts
    ensures forall y | y in DirectItems(g, x.loc) :: DependsOn(g, x, y)
  {
  }

  lemma IndirectItemsDepend(g: Graph, x: Item, obj: Id)
    requires g.WellFormed() && x.loc in g.stmts
    requires g.stmts[x.loc].Load? || x.cur == obj
    ensures forall y | y in IndirectItems(g, x.loc, obj) :: DependsOn(g, x, y)
  {
  }

  lemma PointerItemsDepend(g: Graph, x: Item)
    requires g.WellFormed() && x.loc in g.stmts
    ensures forall y | y in PointerItems(g, x.loc) :: DependsOn(g, x, y)
  {
    assert g.WellFormedStmt(x.loc);
    forall y | y in PointerItems(g, x.loc) ensures DependsOn(g, x, y) {
      DirectReadDepends(g, x, y);
    }
  }

  lemma LoadItemsDepend(g: Graph, x: Item, objs: set<Id>)
    requires g.WellFormed() && x.loc in g.stmts && g.stmts[x.loc].Load?
    ensures forall y | y in LoadItems(g, x.loc, objs) :: DependsOn(g, x, y)
  {
  }

  lemma StoreItemsDepend(g: Graph, x: Item, seen: set<Id>, strong: bool)
    requires g.WellFormed() && x.loc in g.stmts && g.stmts[x.loc].Store? && g.stmts[x.loc].srcIsPointer
    ensures forall y | y in StoreItems(g, x.loc, x.cur, seen, strong) :: DependsOn(g, x, y)
  {
    assert g.WellFormedStmt(x.loc);
    var s := g.stmts[x.loc].storeSrc;
    DirectReadDepends(g, x, Item(g.def[s], s));
    IndirectItemsDepend(g, x, x.cur);
  }

  /** Every item a statement reads is one whose growth revisits the statement. */
  lemma ReadsDepend(g: Graph, p: Pts, x: Item)
    requires g.WellFormed() && x.loc in g.stmts
    ensures forall y | y in Reads(g, p, x) :: DependsOn(g, x, y)
  {
    PointerItemsDepend(g, x);
    DirectItemsDepend(g, x);
    match g.stmts[x.loc]
    case Load(true, v) => LoadItemsDepend(g, x, Get(p, Item(g.def[v], v)));
    case Store(true, _, d) =>
      var targets := Get(p, Item(g.def[d], d));
      StoreItemsDepend(g, x, targets, IsStrongUpdate(g, targets));
    case MemRegion => IndirectItemsDepend(g, x, x.cur);
    case _ =>
  }

  // ---------- the relation composes ----------

  /** An item that is done stays done while its inputs do not change. */
  lemma DoneWithSameInputs(g: Graph, s: State, t: State, x: Item)
    requires g.WellFormed() && Done(g, s, x) && SameInputs(g, x, s.pts, t.pts)
    requires Below(s.pts, t.pts) && s.Known() <= t.Known()
    ensures Done(g, t, x)
  {
    ReadsDepend(g, s.pts, x);
    AgreeOnReads(g, s.pts, t.pts, x);
    assert Get(s.pts, x) <= Get(t.pts, x);
  }

  lemma DoneStays(g: Graph, s: State, t: State, x: Item)
    requires g.WellFormed() && Moves(g, s, t) && x in s.recorded && Done(g, s, x) && !t.outOfBudget
    ensures Done(g, t, x)
  {
    hide Credit;
    if !Done(g, t, x) { DoneWithSameInputs(g, s, t, x); }
  }

  lemma StepReflexive(g: Graph, s: State)
    requires g.WellFormed()
    ensures Step(g, s, s) && Moves(g, s, s)
  {
  }

  lemma StepTransitive(g: Graph, s: State, t: State, u: State)
    requires g.WellFormed() && Step(g, s, t) && Step(g, t, u)
    ensures Step(g, s, u)
  {
    hide Moves, Credit;
    MovesTransitive(g, s, t, u);
  }

  lemma MovesTransitive(g: Graph, s: State, t: State, u: State)
    requires g.WellFormed() && Moves(g, s, t) && Moves(g, t, u)
    ensures Moves(g, s, u)
  {
    hide Credit;
    assert Below(s.pts, u.pts) by {
      forall x ensures Get(s.pts, x) <= Get(u.pts, x) {
        assert Get(s.pts, x) <= Get(t.pts, x) && Get(t.pts, x) <= Get(u.pts, x);
      }
    }
    if !u.outOfBudget {
      forall x | x in u.recorded && !Done(g, u, x)
        ensures x in s.recorded && SameInputs(g, x, s.pts, u.pts)
      {
        if Done(g, t, x) { DoneStays(g, t, u, x); }
      }
    }
  }

  /** Growing caches shrink the set of missing facts. */
  lemma MissingShrinks(g: Graph, s: State, t: State)
    requires Below(s.pts, t.pts)
    ensures Missing(g, t) <= Missing(g, s)
  {
  }

  // ---------- one statement's evaluation ----------

  /** While the statement of `owner` is evaluated: either a revisit has already
      brought `owner` up to date, or `pts` holds the current sets of all of `xs`. */
  ghost predicate Collected(g: Graph, s: State, owner: Item, xs: set<Item>, pts: set<Id>)
    requires g.WellFormed()
  {
    s.outOfBudget || Done(g, s, owner) || (Gather(s.pts, xs) <= pts && xs <= s.Known())
  }

  lemma CollectedStays(g: Graph, s: State, t: State, owner: Item, xs: set<Item>, pts: set<Id>)
    requires g.WellFormed() && Step(g, s, t) && owner in s.recorded
    requires forall y | y in xs :: DependsOn(g, owner, y)
    requires Collected(g, s, owner, xs, pts)
    ensures Collected(g, t, owner, xs, pts)
  {
    hide Credit;
    if !t.outOfBudget && !Done(g, t, owner) {
      assert SameInputs(g, owner, s.pts, t.pts);
      if Done(g, s, owner) { DoneStays(g, s, t, owner); }
      forall o | o in Gather(t.pts, xs) ensures o in Gather(s.pts, xs) {
        var y :| y in xs && o in Get(t.pts, y);
        assert Get(s.pts, y) == Get(t.pts, y);
      }
    }
  }

  /** An accumulator that started at `base` and has collected `xs` for `owner`,
      and nothing else. */
  ghost predicate Collecting(g: Graph, s: State, owner: Item, xs: set<Item>, base: set<Id>, pts: set<Id>)
    requires g.WellFormed()
  {
    base <= pts <= base + Gather(s.pts, xs) && Collected(g, s, owner, xs, pts)
  }

  lemma CollectingNothing(g: Graph, s: State, owner: Item, base: set<Id>)
    requires g.WellFormed()
    ensures Collecting(g, s, owner, {}, base, base)
  {
  }

  /** Reading one more item `y` and adding its current set. */
  lemma CollectingMore(g: Graph, s: State, t: State, owner: Item, xs: set<Item>, base: set<Id>, pts: set<Id>, y: Item)
    requires g.WellFormed() && Step(g, s, t) && owner in s.recorded && y in t.visited
    requires forall x | x in xs :: DependsOn(g, owner, x)
    requires Collecting(g, s, owner, xs, base, pts)
    ensures Collecting(g, t, owner, xs + {y}, base, pts + Get(t.pts, y))
  {
    hide Credit;
    CollectedStays(g, s, t, owner, xs, pts);
    GatherMonotone(s.pts, t.pts, xs, xs + {y});
  }

  /** Appending the set collected for `ys` to one that holds `xs`. */
  lemma CollectingBoth(g: Graph, s: State, t: State, owner: Item, xs: set<Item>, ys: set<Item>,
                       base: set<Id>, pts: set<Id>, more: set<Id>)
    requires g.WellFormed() && Step(g, s, t) && owner in s.recorded
    requires forall x | x in xs :: DependsOn(g, owner, x)
    requires Collecting(g, s, owner, xs, base, pts) && Collecting(g, t, owner, ys, pts, more)
    ensures Collecting(g, t, owner, xs + ys, base, more)
  {
    hide Credit;
    CollectedStays(g, s, t, owner, xs, pts);
    GatherMonotone(s.pts, t.pts, xs, xs + ys);
    GatherMonotone(t.pts, t.pts, ys, xs + ys);
  }

  lemma DirectSourcesSnoc(g: Graph, es: seq<Edge>, k: nat)
    requires k < |es|
    ensures DirectSources(g, es[..k + 1]) == DirectSources(g, es[..k]) +
      if es[k].Direct? && es[k].src in g.lhs then {Item(es[k].src, g.lhs[es[k].src])} else {}
  {
  }

  lemma IndirectSourcesSnoc(es: seq<Edge>, k: nat, obj: Id)
    requires k < |es|
    ensures IndirectSources(es[..k + 1], obj) == IndirectSources(es[..k], obj) +
      if es[k].Indirect? && obj in es[k].guard then {Item(es[k].src, obj)} else {}
  {
  }

  lemma StepGrows(g: Graph, s: State, t: State)
    requires g.WellFormed() && Step(g, s, t)
    ensures Missing(g, t) <= Missing(g, s) && Unvisited(g, t) <= Unvisited(g, s) && s.recorded <= t.recorded
  {
  }

  lemma MovesGrow(g: Graph, s: State, t: State)
    requires g.WellFormed() && Moves(g, s, t)
    ensures Missing(g, t) <= Missing(g, s) && s.recorded <= t.recorded
  {
  }

  lemma StepKeeps(g: Graph, s: State, t: State, x: Item)
    requires g.WellFormed() && Step(g, s, t)
    ensures x in s.recorded ==> x in t.recorded
    ensures x in s.loadVar ==> x in t.loadVar
  {
  }

  lemma RecordedAreItems(g: Graph, s: State)
    requires Inv(g, s)
    ensures s.recorded <= g.Items()
    ensures forall x | x in s.recorded :: x.loc in g.stmts && x.cur in g.ids &&
              (g.IsTopLevel(x.loc) || (x in s.loadVar && x in s.loadDpm && s.loadVar[x] == x.cur))
  {
  }

  lemma BelowLeast(g: Graph, s: State, x: Item)
    requires Inv(g, s)
    ensures Get(s.pts, x) <= Get(Least(g), x)
  {
  }

  lemma CollectingStays(g: Graph, s: State, t: State, owner: Item, xs: set<Item>, base: set<Id>, pts: set<Id>)
    requires g.WellFormed() && Step(g, s, t) && owner in s.recorded
    requires forall x | x in xs :: DependsOn(g, owner, x)
    requires Collecting(g, s, owner, xs, base, pts)
    ensures Collecting(g, t, owner, xs, base, pts)
  {
    hide Credit;
    CollectedStays(g, s, t, owner, xs, pts);
    GatherMonotone(s.pts, t.pts, xs, xs);
  }

  /** `pts` holds all of `x`'s right-hand side, or a revisit already stored it. */
  ghost predicate Covered(g: Graph, s: State, x: Item, pts: set<Id>)
    requires g.WellFormed() && x.loc in g.stmts
  {
    s.outOfBudget || Done(g, s, x) || (Transfer(g, s.pts, x) <= pts && Reads(g, s.pts, x) <= s.Known())
  }

  /** `pts` is a complete value of `x`'s right-hand side, and no more. */
  ghost predicate Evaluated(g: Graph, s: State, x: Item, pts: set<Id>)
    requires g.WellFormed() && x.loc in g.stmts
  {
    pts <= Transfer(g, s.pts, x) && Covered(g, s, x, pts)
  }

  /** A statement that reads nothing is evaluated at once. */
  lemma ConstantResult(g: Graph, s: State, x: Item, pts: set<Id>)
    requires Inv(g, s) && x.loc in g.stmts && Reads(g, s.pts, x) == {} && pts == Transfer(g, s.pts, x)
    ensures Evaluated(g, s, x, pts)
  {
  }

  lemma CollectedInIds(g: Graph, s: State, x: Item, xs: set<Item>, pts: set<Id>)
    requires Inv(g, s) && Collecting(g, s, x, xs, {}, pts)
    ensures pts <= g.ids
  {
    GatherInIds(g, s.pts, xs);
  }

  lemma CopyResult(g: Graph, s: State, x: Item, pts: set<Id>)
    requires Inv(g, s) && x.loc in g.stmts && g.stmts[x.loc].Copy?
    requires Collecting(g, s, x, DirectItems(g, x.loc), {}, pts)
    ensures Evaluated(g, s, x, pts)
  {
  }

  lemma GepResult(g: Graph, s: State, x: Item, pts: set<Id>)
    requires Inv(g, s) && x.loc in g.stmts && g.stmts[x.loc].Gep?
    requires Collecting(g, s, x, DirectItems(g, x.loc), {}, pts)
    ensures Evaluated(g, s, x, g.gep(x.loc, pts))
  {
    GatherInIds(g, s.pts, DirectItems(g, x.loc));
  }

  lemma MemRegionResult(g: Graph, s: State, x: Item, pts: set<Id>)
    requires Inv(g, s) && x.loc in g.stmts && g.stmts[x.loc].MemRegion?
    requires Collecting(g, s, x, IndirectItems(g, x.loc, x.cur), {}, pts)
    ensures Evaluated(g, s, x, pts)
  {
  }

  lemma SingletonGather(p: Pts, y: Item)
    ensures Gather(p, {y}) == Get(p, y)
  {
  }

  /** A load has found its pointer's targets `objs` and collected those in `seen`. */
  ghost predicate LoadProgress(g: Graph, s: State, x: Item, objs: set<Id>, seen: set<Id>, pts: set<Id>)
    requires g.WellFormed() && x.loc in g.stmts
  {
    && Collecting(g, s, x, PointerItems(g, x.loc), {}, objs)
    && Collecting(g, s, x, LoadItems(g, x.loc, seen), {}, pts)
  }

  lemma LoadProgressStarts(g: Graph, t: State, x: Item, objs: set<Id>)
    requires g.WellFormed() && x.loc in g.stmts && g.stmts[x.loc].Load? && g.stmts[x.loc].dstIsPointer
    requires forall y | y in PointerItems(g, x.loc) :: y in t.visited && objs == Get(t.pts, y)
    ensures LoadProgress(g, t, x, objs, {}, {})
  {
    assert LoadItems(g, x.loc, {}) == {};
  }

  lemma LoadProgressStays(g: Graph, s: State, t: State, x: Item, objs: set<Id>, seen: set<Id>, pts: set<Id>)
    requires g.WellFormed() && x.loc in g.stmts && g.stmts[x.loc].Load?
    requires Step(g, s, t) && x in s.recorded && LoadProgress(g, s, x, objs, seen, pts)
    ensures LoadProgress(g, t, x, objs, seen, pts)
  {
    hide Credit;
    PointerItemsDepend(g, x);
    LoadItemsDepend(g, x, seen);
    CollectingStays(g, s, t, x, PointerItems(g, x.loc), {}, objs);
    CollectingStays(g, s, t, x, LoadItems(g, x.loc, seen), {}, pts);
  }

  lemma LoadProgressMore(g: Graph, s: State, t: State, x: Item, objs: set<Id>, seen: set<Id>, pts: set<Id>,
                         o: Id, more: set<Id>)
    requires g.WellFormed() && x.loc in g.stmts && g.stmts[x.loc].Load?
    requires Step(g, s, t) && x in s.recorded && LoadProgress(g, s, x, objs, seen, pts)
    requires Collecting(g, t, x, IndirectItems(g, x.loc, o), pts, more)
    ensures LoadProgress(g, t, x, objs, seen + {o}, more)
  {
    hide Credit;
    LoadProgressStays(g, s, t, x, objs, seen, pts);
    LoadItemsDepend(g, x, seen);
    LoadItemsMore(g, x.loc, seen, o);
    CollectingBoth(g, s, t, x, LoadItems(g, x.loc, seen), IndirectItems(g, x.loc, o), {}, pts, more);
  }

  /** Reading the stored value's item as a first step. */
  lemma CollectingOne(g: Graph, s: State, t: State, x: Item, pts: set<Id>, more: set<Id>)
    requires g.WellFormed() && x.loc in g.stmts && g.stmts[x.loc].Store? && g.stmts[x.loc].srcIsPointer
    requires Step(g, s, t) && x in s.recorded
    requires var p := g.stmts[x.loc].storeSrc;
      && Item(g.def[p], p) in t.visited
      && more == pts + Get(t.pts, Item(g.def[p], p))
    ensures var p := g.stmts[x.loc].storeSrc; Collecting(g, t, x, {Item(g.def[p], p)}, pts, more)
  {
    hide Credit;
    var p := g.stmts[x.loc].storeSrc;
    CollectingNothing(g, s, x, pts);
    CollectingMore(g, s, t, x, {}, pts, pts, Item(g.def[p], p));
    assert {} + {Item(g.def[p], p)} == {Item(g.def[p], p)};
  }

  lemma StoredDepends(g: Graph, x: Item)
    requires g.WellFormed() && x.loc in g.stmts && g.stmts[x.loc].Store? && g.stmts[x.loc].srcIsPointer
    ensures var p := g.stmts[x.loc].storeSrc; DependsOn(g, x, Item(g.def[p], p))
  {
    assert g.WellFormedStmt(x.loc);
    var p := g.stmts[x.loc].storeSrc;
    DirectReadDepends(g, x, Item(g.def[p], p));
  }

  /** A store has found its pointer's targets and collected those in `seen`. */
  ghost predicate StoreProgress(g: Graph, s: State, x: Item, targets: set<Id>, seen: set<Id>, pts: set<Id>)
    requires g.WellFormed() && x.loc in g.stmts && g.stmts[x.loc].Store? && g.stmts[x.loc].srcIsPointer
  {
    && Collecting(g, s, x, PointerItems(g, x.loc), {}, targets)
    && Collecting(g, s, x, StoreItems(g, x.loc, x.cur, seen, IsStrongUpdate(g, targets)), {}, pts)
  }

  lemma StoreProgressStarts(g: Graph, t: State, x: Item, targets: set<Id>)
    requires g.WellFormed() && x.loc in g.stmts && g.stmts[x.loc].Store? && g.stmts[x.loc].srcIsPointer
    requires forall y | y in PointerItems(g, x.loc) :: y in t.visited && targets == Get(t.pts, y)
    ensures StoreProgress(g, t, x, targets, {}, {})
  {
    assert StoreItems(g, x.loc, x.cur, {}, IsStrongUpdate(g, targets)) == {};
  }

  lemma StoreProgressStays(g: Graph, s: State, t: State, x: Item, targets: set<Id>, seen: set<Id>, pts: set<Id>)
    requires g.WellFormed() && x.loc in g.stmts && g.stmts[x.loc].Store? && g.stmts[x.loc].srcIsPointer
    requires Step(g, s, t) && x in s.recorded && StoreProgress(g, s, x, targets, seen, pts)
    ensures StoreProgress(g, t, x, targets, seen, pts)
  {
    hide Credit, IsStrongUpdate, StoreItems, Step, Collecting;
    var strong := IsStrongUpdate(g, targets);
    PointerItemsDepend(g, x);
    StoreItemsDepend(g, x, seen, strong);
    CollectingStays(g, s, t, x, PointerItems(g, x.loc), {}, targets);
    CollectingStays(g, s, t, x, StoreItems(g, x.loc, x.cur, seen, strong), {}, pts);
  }

  /** One more target `o`: the stored value's items `ys`, or the old contents',
      or both, as the store rule says. */
  lemma StoreProgressMore(g: Graph, s: State, t: State, x: Item, targets: set<Id>, seen: set<Id>, pts: set<Id>,
                          o: Id, ys: set<Item>, more: set<Id>)
    requires g.WellFormed() && x.loc in g.stmts && g.stmts[x.loc].Store? && g.stmts[x.loc].srcIsPointer
    requires Step(g, s, t) && x in s.recorded && StoreProgress(g, s, x, targets, seen, pts)
    requires Collecting(g, t, x, ys, pts, more)
    requires ys == (if o == x.cur then {Item(g.def[g.stmts[x.loc].storeSrc], g.stmts[x.loc].storeSrc)} else {}) +
      (if o == x.cur && IsStrongUpdate(g, targets) then {} else IndirectItems(g, x.loc, x.cur))
    ensures StoreProgress(g, t, x, targets, seen + {o}, more)
  {
    hide Credit, IsStrongUpdate, StoreItems, Step, Collecting, IndirectItems;
    var strong := IsStrongUpdate(g, targets);
    StoreProgressStays(g, s, t, x, targets, seen, pts);
    StoreItemsDepend(g, x, seen, strong);
    StoreItemsMore(g, x.loc, x.cur, seen, o, strong);
    CollectingBoth(g, s, t, x, StoreItems(g, x.loc, x.cur, seen, strong), ys, {}, pts, more);
    assert StoreItems(g, x.loc, x.cur, seen + {o}, strong) == StoreItems(g, x.loc, x.cur, seen, strong) + ys;
  }

  lemma LoadProgressInIds(g: Graph, s: State, x: Item, objs: set<Id>, seen: set<Id>, pts: set<Id>)
    requires Inv(g, s) && x.loc in g.stmts && LoadProgress(g, s, x, objs, seen, pts)
    ensures objs <= g.ids
  {
    CollectedInIds(g, s, x, PointerItems(g, x.loc), objs);
  }

  lemma LoadResult(g: Graph, s: State, x: Item, objs: set<Id>, pts: set<Id>)
    requires Inv(g, s) && x.loc in g.stmts && g.stmts[x.loc].Load? && g.stmts[x.loc].dstIsPointer
    requires LoadProgress(g, s, x, objs, objs, pts)
    ensures Evaluated(g, s, x, pts)
  {
    hide Sound, Closed, LoadsRecorded;
    var y := Item(g.def[g.stmts[x.loc].loadSrc], g.stmts[x.loc].loadSrc);
    SingletonGather(s.pts, y);
    GatherMonotone(s.pts, s.pts, LoadItems(g, x.loc, objs), LoadItems(g, x.loc, Get(s.pts, y)));
    assert Get(s.pts, y) <= objs ==> Get(s.pts, y) == objs;
  }

  lemma StoreResult(g: Graph, s: State, x: Item, targets: set<Id>, pts: set<Id>)
    requires Inv(g, s) && x.loc in g.stmts && g.stmts[x.loc].Store? && g.stmts[x.loc].srcIsPointer
    requires StoreProgress(g, s, x, targets, targets, pts)
    ensures Evaluated(g, s, x, pts)
  {
    hide Sound, Closed, LoadsRecorded, IsStrongUpdate, StoreItems;
    var y := Item(g.def[g.stmts[x.loc].storeDst], g.stmts[x.loc].storeDst);
    var all := Get(s.pts, y);
    SingletonGather(s.pts, y);
    StoreRuleMonotone(g, x.loc, x.cur, targets, all);
    GatherMonotone(s.pts, s.pts, StoreItems(g, x.loc, x.cur, targets, IsStrongUpdate(g, targets)),
                   StoreItems(g, x.loc, x.cur, all, IsStrongUpdate(g, all)));
    assert all <= targets ==> all == targets;
  }

  lemma LoadItemsMore(g: Graph, n: NodeId, objs: set<Id>, obj: Id)
    requires g.WellFormed() && n in g.stmts
    ensures LoadItems(g, n, objs + {obj}) == LoadItems(g, n, objs) + IndirectItems(g, n, obj)
    ensures LoadItems(g, n, {}) == {}
  {
  }

  lemma StoreItemsMore(g: Graph, n: NodeId, obj: Id, seen: set<Id>, o: Id, strong: bool)
    requires g.WellFormed() && n in g.stmts && g.stmts[n].Store? && g.stmts[n].srcIsPointer
    ensures StoreItems(g, n, obj, seen + {o}, strong) == StoreItems(g, n, obj, seen, strong) +
      (if o == obj then {Item(g.def[g.stmts[n].storeSrc], g.stmts[n].storeSrc)} else {}) +
      (if o == obj && strong then {} else IndirectItems(g, n, obj))
    ensures StoreItems(g, n, obj, {}, strong) == {}
  {
  }

  // ---------- the elementary updates ----------

  ghost function Mark(s: State, x: Item): State {
    s.(visited := s.visited + {x}, recorded := s.recorded + {x})
  }

  /** Counts a step unless the budget is used up. */
  ghost function Spend(s: State): State {
    if s.outOfBudget then s else s.(steps := s.steps + 1, outOfBudget := s.steps + 1 > s.budget)
  }

  ghost function Unmark(s: State, x: Item): State {
    s.(visited := s.visited - {x})
  }

  ghost function NoteLoad(s: State, x: Item, load: Item, v: Id): State {
    s.(loadDpm := s.loadDpm[x := load], loadVar := s.loadVar[x := v])
  }

  ghost function Grow(s: State, x: Item, pts: set<Id>): State {
    s.(pts := s.pts[x := Get(s.pts, x) + pts])
  }

  lemma NoteLoadKeeps(g: Graph, s: State, x: Item, load: Item)
    requires Inv(g, s)
    ensures var t := NoteLoad(s, x, load, x.cur); Inv(g, t) && Step(g, s, t) && Missing(g, s) == Missing(g, t)
  {
    hide Credit;
    CreditSame(g, s, NoteLoad(s, x, load, x.cur));
  }

  lemma MarkKeeps(g: Graph, s: State, x: Item)
    requires Inv(g, s) && x in g.Items() && x !in s.visited
    requires g.IsTopLevel(x.loc) || x in s.loadVar
    ensures var t := Mark(s, x); Inv(g, t) && s.Base() == t.Base() && Missing(g, s) == Missing(g, t)
  {
    hide Transfer, Reads, Least, Graph.WellFormed;
    assert s.Base() == Mark(s, x).Base();
  }

  lemma UnmarkKeeps(g: Graph, s: State, x: Item)
    requires Inv(g, s) && x in s.recorded
    ensures var t := Unmark(s, x); Inv(g, t) && s.Base() == t.Base() && Missing(g, s) == Missing(g, t)
    ensures s.Known() == Unmark(s, x).Known()
  {
    hide Transfer, Reads, Least, Graph.WellFormed;
    assert s.Base() == Unmark(s, x).Base();
  }

  lemma SpendKeeps(g: Graph, s: State)
    requires Inv(g, s)
    ensures Inv(g, Spend(s)) && Missing(g, s) == Missing(g, Spend(s))
  {
    hide Transfer, Reads, Least, Graph.WellFormed;
    assert s.Base() == Spend(s).Base();
  }

  lemma GrowSound(g: Graph, p: Pts, q: Pts, x: Item, pts: set<Id>)
    requires g.WellFormed() && Sound(g, p) && x in p && pts <= Transfer(g, p, x)
    requires q == p[x := p[x] + pts]
    ensures Sound(g, q) && Below(p, q)
  {
    hide Transfer, Least, Graph.WellFormed;
    var least := Least(g);
    LeastIsLeastSolution(g);
    TransferInIds(g, p, x);
    TransferMonotone(g, p, least, x);
    GrownStaysBelow(p, q, least, x, pts);
    forall y | y in q ensures q[y] <= Transfer(g, q, y) {
      TransferMonotone(g, p, q, y);
      assert p[y] <= Transfer(g, p, y);
    }
  }

  lemma GrownStaysBelow(p: Pts, q: Pts, least: Pts, x: Item, pts: set<Id>)
    requires x in p && q == p[x := p[x] + pts] && Below(p, least) && pts <= Get(least, x)
    ensures Below(p, q) && Below(q, least)
  {
    forall y ensures Get(q, y) <= Get(least, y) {
      assert Get(p, y) <= Get(least, y);
    }
  }

  lemma GrowClosed(g: Graph, p: Pts, q: Pts, xs: set<Item>)
    requires g.WellFormed() && Closed(g, p, xs)
    requires forall x | x in xs :: Get(p, x) == Get(q, x)
    ensures Closed(g, q, xs)
  {
    forall x | x in xs
      ensures x.loc in g.stmts && Transfer(g, q, x) <= Get(q, x) && Reads(g, q, x) <= xs
    {
      AgreeOnReads(g, p, q, x);
    }
  }

  lemma FewerMissing(g: Graph, s: State, x: Item, pts: set<Id>)
    requires x in g.Items() && pts <= g.ids && !(pts <= Get(s.pts, x))
    ensures Missing(g, Grow(s, x, pts)) != Missing(g, s)
  {
    var o :| o in pts && o !in Get(s.pts, x);
    assert (x, o) in Missing(g, s) && (x, o) !in Missing(g, Grow(s, x, pts));
  }

  /** A cache may grow by any part of its own right-hand side. */
  lemma GrowKeeps(g: Graph, s: State, x: Item, pts: set<Id>)
    requires Inv(g, s) && x in s.recorded && pts <= Transfer(g, s.pts, x)
    ensures x in g.Items()
    ensures var t := Grow(s, x, pts); Inv(g, t) && Below(s.pts, t.pts)
    ensures var t := Grow(s, x, pts); Missing(g, t) <= Missing(g, s)
    ensures var t := Grow(s, x, pts); !(pts <= Get(s.pts, x)) ==> Missing(g, t) < Missing(g, s)
  {
    hide Transfer, Closed, Missing, Least;
    var t := Grow(s, x, pts);
    GrowSound(g, s.pts, t.pts, x, pts);
    GrowClosed(g, s.pts, t.pts, s.Base());
    assert s.Base() == t.Base();
    MissingShrinks(g, s, t);
    if !(pts <= Get(s.pts, x)) {
      TransferInIds(g, s.pts, x);
      FewerMissing(g, s, x, pts);
    }
  }

  lemma GrownIsDone(g: Graph, s: State, x: Item, pts: set<Id>)
    requires g.WellFormed() && x.loc in g.stmts && Covered(g, s, x, pts)
    requires !s.outOfBudget && !DependsOn(g, x, x)
    ensures Done(g, Grow(s, x, pts), x)
  {
    ReadsDepend(g, s.pts, x);
    AgreeOnReads(g, s.pts, Grow(s, x, pts).pts, x);
  }

  /** All that depends on `x` is done in `u`, where `t` is the state in which
      the cache of `x` had just grown. */
  ghost predicate Revisited(g: Graph, t: State, x: Item, u: State)
    requires g.WellFormed()
  {
    u.outOfBudget || forall y | y in t.recorded && DependsOn(g, y, x) :: Done(g, u, y)
  }

  lemma GrowThenRevisitSettles(g: Graph, s: State, x: Item, pts: set<Id>, u: State)
    requires g.WellFormed() && Moves(g, Grow(s, x, pts), u) && Revisited(g, Grow(s, x, pts), x, u)
    requires !u.outOfBudget
    ensures Settled(g, s, u)
  {
    hide Credit;
    var t := Grow(s, x, pts);
    forall y | y in u.recorded && !Done(g, u, y)
      ensures y in s.recorded && SameInputs(g, y, s.pts, u.pts)
    {
      assert y in t.recorded && SameInputs(g, y, t.pts, u.pts);
      assert !DependsOn(g, y, x);
      forall z | DependsOn(g, y, z) ensures Get(s.pts, z) == Get(u.pts, z) {
        assert Get(s.pts, z) == Get(t.pts, z);
      }
    }
  }

  /** Growing the cache of `x` and then revisiting all that depends on it is a
      step, and leaves `x` done if its new value covers its right-hand side. */
  lemma GrowThenRevisit(g: Graph, s: State, x: Item, pts: set<Id>, u: State)
    requires g.WellFormed() && x.loc in g.stmts && x in s.recorded && Covered(g, s, x, pts)
    requires Moves(g, Grow(s, x, pts), u) && Revisited(g, Grow(s, x, pts), x, u) && Credit(g, u) <= Credit(g, s)
    ensures Step(g, s, u) && (!u.outOfBudget ==> Done(g, u, x))
  {
    hide Credit;
    var t := Grow(s, x, pts);
    assert Below(s.pts, u.pts) by {
      forall y ensures Get(s.pts, y) <= Get(u.pts, y) {
        assert Get(s.pts, y) <= Get(t.pts, y) && Get(t.pts, y) <= Get(u.pts, y);
      }
    }
    assert s.Base() == t.Base();
    if !u.outOfBudget {
      GrowThenRevisitSettles(g, s, x, pts, u);
      if !DependsOn(g, x, x) {
        GrownIsDone(g, s, x, pts);
        DoneStays(g, t, u, x);
      }
    }
  }

  lemma GrowNothing(g: Graph, s: State, x: Item, pts: set<Id>)
    requires Inv(g, s) && x in s.recorded && pts <= Get(s.pts, x) && Covered(g, s, x, pts)
    ensures Grow(s, x, pts) == s && (s.outOfBudget || Done(g, s, x))
  {
    hide Closed, Transfer, Least, Graph.WellFormed;
    assert Get(s.pts, x) + pts == s.pts[x];
  }

  /** Among `xs`, all that edge `e` makes the solver revisit is done. */
  ghost predicate RunAgainDone(g: Graph, s: State, e: Edge, y: Item, xs: set<Item>)
    requires g.WellFormed()
  {
    s.outOfBudget || forall x | x in xs && Triggers(g, e, y, x) :: Done(g, s, x)
  }

  lemma RunAgainDoneStays(g: Graph, s: State, t: State, e: Edge, y: Item, xs: set<Item>, x: Item)
    requires g.WellFormed() && Moves(g, s, t) && xs <= s.recorded && RunAgainDone(g, s, e, y, xs)
    requires t.outOfBudget || !Triggers(g, e, y, x) || Done(g, t, x)
    ensures RunAgainDone(g, t, e, y, xs + {x})
  {
    hide Credit;
    if !t.outOfBudget {
      forall z | z in xs && Triggers(g, e, y, z) ensures Done(g, t, z) {
        DoneStays(g, s, t, z);
      }
    }
  }

  /** All that was recorded in `s` and that one of the edges makes the solver revisit
      is done in `t`. */
  ghost predicate EdgesDone(g: Graph, s: State, t: State, edgeSet: seq<Edge>, y: Item)
    requires g.WellFormed()
  {
    t.outOfBudget || forall e, x | e in edgeSet && x in s.recorded && Triggers(g, e, y, x) :: Done(g, t, x)
  }

  /** Revisiting: clearing a recorded item's mark and finding it again. */
  lemma RevisitMoves(g: Graph, s: State, x: Item, t: State)
    requires Inv(g, s) && x in s.recorded && Step(g, Unmark(s, x), t) && x in t.visited
    ensures Moves(g, s, t) && Credit(g, t) <= Credit(g, s) + 1
  {
    hide Credit;
    UnmarkKeeps(g, s, x);
    CreditOfUnmark(g, s, x);
  }

  /** Visiting: marking an item, counting the step, evaluating the item and storing
      the result. */
  lemma VisitIsStep(g: Graph, s: State, x: Item, t: State)
    requires Inv(g, s) && x in g.Items() && x !in s.visited
    requires Step(g, Spend(Mark(s, x)), t) && (t.outOfBudget || Done(g, t, x))
    ensures Step(g, s, t)
  {
    hide Inv, Done, Graph.WellFormed, Credit;
    assert s.Base() == Spend(Mark(s, x)).Base();
    CreditOfVisit(g, s, Spend(Mark(s, x)), x);
  }

  // ---------- at the end of a query ----------

  ghost predicate AllFinal(g: Graph, s: State, xs: set<Item>)
    requires g.WellFormed()
  {
    forall x | x in xs ::
      && x.loc in g.stmts
      && Get(s.pts, x) == Transfer(g, s.pts, x) == Get(Least(g), x)
      && Reads(g, s.pts, x) <= xs
  }

  lemma ClosedIsFinal(g: Graph, s: State, xs: set<Item>)
    requires Inv(g, s) && Closed(g, s.pts, xs) && xs <= g.Items()
    ensures AllFinal(g, s, xs)
  {
    forall x | x in xs ensures Get(s.pts, x) == Get(Least(g), x) {
      ClosedSolvedIsLeast(g, s.pts, xs, x);
    }
    forall x | x in xs ensures Get(s.pts, x) == Transfer(g, s.pts, x) {
      assert Get(s.pts, x) <= Transfer(g, s.pts, x);
    }
  }

  /** When all recorded items are done and marked, everything marked is final. */
  lemma AllVisitedFinal(g: Graph, s: State)
    requires Inv(g, s) && s.recorded <= s.visited
    requires forall x | x in s.recorded :: Done(g, s, x)
    ensures AllFinal(g, s, s.visited)
  {
    assert s.Known() == s.visited;
    forall x | x in s.visited
      ensures x.loc in g.stmts && Transfer(g, s.pts, x) <= Get(s.pts, x) && Reads(g, s.pts, x) <= s.visited
    {
      if x !in s.recorded { assert x in s.Base(); }
    }
    ClosedIsFinal(g, s, s.visited);
  }

  /** The state after `resetQuery`: nothing recorded, and the marks of an
      out-of-budget query taken back. */
  ghost function Reset(s: State): State {
    State(if s.outOfBudget then s.Base() else s.visited, {}, s.pts, map[], map[], false, 0, s.budget)
  }

  /** After the reset every marked item is final, whether or not the query
      stayed in budget. */
  lemma ResetKeeps(g: Graph, s: State)
    requires Inv(g, s) && s.recorded <= s.visited
    requires s.outOfBudget || forall x | x in s.recorded :: Done(g, s, x)
    ensures Inv(g, Reset(s)) && AllFinal(g, Reset(s), Reset(s).visited)
  {
    var t := Reset(s);
    assert t.Base() == t.visited;
    if s.outOfBudget {
      ClosedIsFinal(g, s, s.Base());
    } else {
      AllVisitedFinal(g, s);
    }
  }

  lemma BudgetSet(g: Graph, s: State, b: nat)
    requires Inv(g, s) && s.steps == 0 && !s.outOfBudget
    ensures Inv(g, s.(budget := b))
  {
  }

  /** A query that started from a reset state: in budget, all it marked is final; and
      it stays in budget if that suffices for every possible step. */
  lemma QueryDone(g: Graph, s: State, t: State, x: Item)
    requires g.WellFormed() && Step(g, s, t) && s.recorded == {} && s.steps == 0
    requires Inv(g, t) && t.recorded <= t.visited && x in t.visited
    ensures t.outOfBudget || forall y | y in t.recorded :: Done(g, t, y)
    ensures Get(t.pts, x) <= Get(Least(g), x)
    ensures !t.outOfBudget ==> AllFinal(g, t, t.visited) && Get(t.pts, x) == Get(Least(g), x)
    ensures EnoughSteps(g) <= s.budget ==> !t.outOfBudget
    ensures t.outOfBudget <==> t.steps > s.budget
  {
    hide Done, Credit, EnoughSteps, Graph.WellFormed, Transfer, Reads, AllFinal, Least;
    CreditAtStart(g, s);
    StepsInCredit(g, t);
    BelowLeast(g, t, x);
    if !t.outOfBudget {
      AllVisitedFinal(g, t);
      FinalIsLeast(g, t, t.visited, x);
    }
  }

  lemma StepsInCredit(g: Graph, s: State)
    ensures s.steps <= Credit(g, s)
  {
  }

  lemma FinalIsLeast(g: Graph, s: State, xs: set<Item>, x: Item)
    requires g.WellFormed() && AllFinal(g, s, xs) && x in xs
    ensures Get(s.pts, x) == Get(Least(g), x)
  {
  }

  /** One more edge's items have been run again. */
  lemma EdgeRunAgain(g: Graph, s: State, t: State, u: State, edgeSet: seq<Edge>, k: nat, y: Item, xs: set<Item>)
    requires g.WellFormed() && Moves(g, s, t) && Moves(g, t, u) && k < |edgeSet| && xs <= t.recorded
    requires EdgesDone(g, s, t, edgeSet[..k], y) && RunAgainDone(g, u, edgeSet[k], y, xs)
    requires forall x | x in s.recorded && x.loc == edgeSet[k].dst :: x in xs
    ensures EdgesDone(g, s, u, edgeSet[..k + 1], y)
  {
    hide Done, Credit;
    if !u.outOfBudget {
      forall e, x | e in edgeSet[..k + 1] && x in s.recorded && Triggers(g, e, y, x)
        ensures Done(g, u, x)
      {
        if e in edgeSet[..k] { DoneStays(g, t, u, x); }
      }
    }
  }

  lemma NoEdgesDone(g: Graph, s: State, edgeSet: seq<Edge>, y: Item, n: nat)
    requires g.WellFormed()
    ensures EdgesDone(g, s, s, edgeSet[..0], y) && Times(0, n) == 0
  {
  }

  lemma NoneToRunAgain(g: Graph, s: State, t: State, edgeSet: seq<Edge>, k: nat, y: Item)
    requires g.WellFormed() && k < |edgeSet| && EdgesDone(g, s, t, edgeSet[..k], y)
    requires forall x | x in s.recorded :: x.loc != edgeSet[k].dst
    ensures EdgesDone(g, s, t, edgeSet[..k + 1], y)
  {
  }
}
