/** What the least solution of the value-flow equations means: it is the least
    assignment that obeys the rule of each statement, and no execution of the graph's
    statements computes or stores a pointer outside it. */
module Executions {
  import opened ValueFlow
  import opened DDASolver

  // ---------- the rules of the statements ----------

  /** An object that stands for more than one cell. */
  predicate Summary(g: Graph, o: Id) {
    o in g.heapObjs || o in g.arrayObjs || o in g.fieldInsensitiveObjs || o in g.recursiveLocals
  }

  /** A direct edge into `n`, from the node that defines `p`. */
  predicate ComesFrom(g: Graph, n: NodeId, e: Edge, p: Id) {
    n in g.inEdges && e in g.inEdges[n] && e.Direct? && e.src in g.lhs && g.lhs[e.src] == p
  }

  /** An indirect edge into `n` along which object `o` flows; constants flow nowhere. */
  predicate Flows(g: Graph, n: NodeId, e: Edge, o: Id) {
    n in g.inEdges && e in g.inEdges[n] && e.Indirect? && o in e.guard && o !in g.constObjs
  }

  /** The objects whose fields a GEP at `n` may address. */
  ghost function Bases(g: Graph, q: Pts, n: NodeId): set<Id>
    requires n in g.inEdges
  {
    set e, o | e in g.inEdges[n] && e.Direct? && e.src in g.lhs && o in Get(q, Item(e.src, g.lhs[e.src])) :: o
  }

  /** The rule of each statement: what the points-to set of item `x` has to include. */
  ghost predicate Obeyed(g: Graph, q: Pts, x: Item)
    requires g.WellFormed() && x.loc in g.stmts
  {
    match g.stmts[x.loc]
    case Addr(o) => o in Get(q, x)
    case Copy => forall e, p | ComesFrom(g, x.loc, e, p) :: Get(q, Item(e.src, p)) <= Get(q, x)
    case Gep => g.gep(x.loc, Bases(g, q, x.loc)) <= Get(q, x)
    case Load(true, p) =>
      forall o, e | o in Get(q, Item(g.def[p], p)) && Flows(g, x.loc, e, o) :: Get(q, Item(e.src, o)) <= Get(q, x)
    case Store(true, s, d) =>
      var targets := Get(q, Item(g.def[d], d));
      && (x.cur in targets ==> Get(q, Item(g.def[s], s)) <= Get(q, x))
      && forall o, e | o in targets && (o != x.cur || Summary(g, o)) && Flows(g, x.loc, e, x.cur) ::
           Get(q, Item(e.src, x.cur)) <= Get(q, x)
    case MemRegion => forall e | Flows(g, x.loc, e, x.cur) :: Get(q, Item(e.src, x.cur)) <= Get(q, x)
    case _ => true
  }

  ghost predicate ObeysRules(g: Graph, q: Pts)
    requires g.WellFormed()
  {
    IsAssignment(g, q) && forall x | x in g.Items() :: Obeyed(g, q, x)
  }

  lemma GatherWithin(p: Pts, xs: set<Item>, s: set<Id>)
    ensures Gather(p, xs) <= s <==> forall y | y in xs :: Get(p, y) <= s
  {
    if Gather(p, xs) <= s {
      forall y, o | y in xs && o in Get(p, y) ensures o in s { assert o in Gather(p, xs); }
    }
  }

  lemma DirectItemsAre(g: Graph, n: NodeId, y: Item)
    requires g.WellFormed() && n in g.stmts
    ensures y in DirectItems(g, n) <==> exists e :: ComesFrom(g, n, e, y.cur) && e.src == y.loc
  {
    if e :| ComesFrom(g, n, e, y.cur) && e.src == y.loc { assert y == Item(e.src, g.lhs[e.src]); }
  }

  lemma IndirectItemsAre(g: Graph, n: NodeId, o: Id, y: Item)
    requires g.WellFormed() && n in g.stmts
    ensures y in IndirectItems(g, n, o) <==> y.cur == o && exists e :: Flows(g, n, e, o) && e.src == y.loc
  {
    if e :| y.cur == o && Flows(g, n, e, o) && e.src == y.loc { assert y == Item(e.src, o); }
  }

  lemma AllDirect(g: Graph, q: Pts, n: NodeId, s: set<Id>)
    requires g.WellFormed() && n in g.stmts
    ensures Gather(q, DirectItems(g, n)) <= s <==> forall e, p | ComesFrom(g, n, e, p) :: Get(q, Item(e.src, p)) <= s
  {
    hide Graph.WellFormed, DirectItems, Gather;
    GatherWithin(q, DirectItems(g, n), s);
    forall e, p | ComesFrom(g, n, e, p) ensures Item(e.src, p) in DirectItems(g, n) {
      DirectItemsAre(g, n, Item(e.src, p));
    }
    forall y | y in DirectItems(g, n) ensures exists e :: ComesFrom(g, n, e, y.cur) && e.src == y.loc {
      DirectItemsAre(g, n, y);
    }
  }

  lemma AllIndirect(g: Graph, q: Pts, n: NodeId, o: Id, s: set<Id>)
    requires g.WellFormed() && n in g.stmts
    ensures Gather(q, IndirectItems(g, n, o)) <= s <==> forall e | Flows(g, n, e, o) :: Get(q, Item(e.src, o)) <= s
  {
    hide Graph.WellFormed, IndirectItems, Gather;
    GatherWithin(q, IndirectItems(g, n, o), s);
    forall e | Flows(g, n, e, o) ensures Item(e.src, o) in IndirectItems(g, n, o) {
      IndirectItemsAre(g, n, o, Item(e.src, o));
    }
    forall y | y in IndirectItems(g, n, o) ensures y.cur == o && exists e :: Flows(g, n, e, o) && e.src == y.loc {
      IndirectItemsAre(g, n, o, y);
    }
  }

  lemma LoadObeyed(g: Graph, q: Pts, x: Item)
    requires g.WellFormed() && x.loc in g.stmts && g.stmts[x.loc].Load?
    ensures Transfer(g, q, x) <= Get(q, x) <==> Obeyed(g, q, x)
  {
    var n := x.loc;
    if g.stmts[n].dstIsPointer {
      var p := g.stmts[n].loadSrc;
      var objs := Get(q, Item(g.def[p], p));
      hide Graph.WellFormed, IndirectItems, Gather;
      GatherWithin(q, LoadItems(g, n, objs), Get(q, x));
      forall o ensures Gather(q, IndirectItems(g, n, o)) <= Get(q, x) <==>
                         forall y | y in IndirectItems(g, n, o) :: Get(q, y) <= Get(q, x)
      {
        GatherWithin(q, IndirectItems(g, n, o), Get(q, x));
      }
      forall o ensures Gather(q, IndirectItems(g, n, o)) <= Get(q, x) <==>
                         forall e | Flows(g, n, e, o) :: Get(q, Item(e.src, o)) <= Get(q, x)
      {
        AllIndirect(g, q, n, o, Get(q, x));
      }
      assert (forall y | y in LoadItems(g, n, objs) :: Get(q, y) <= Get(q, x)) <==>
             (forall o | o in objs :: Gather(q, IndirectItems(g, n, o)) <= Get(q, x));
    }
  }

  lemma StoreObeyed(g: Graph, q: Pts, x: Item)
    requires g.WellFormed() && x.loc in g.stmts && g.stmts[x.loc].Store?
    ensures Transfer(g, q, x) <= Get(q, x) <==> Obeyed(g, q, x)
  {
    var n := x.loc;
    if g.stmts[n].srcIsPointer {
      hide Graph.WellFormed, IndirectItems, IsStrongUpdate, Gather, Flows, StoreItems, Summary, Transfer, Obeyed;
      var d := g.stmts[n].storeDst;
      StoreTransfer(g, q, x);
      StoreRule(g, q, x);
      var targets := Get(q, Item(g.def[d], d));
      OldContentsKept(g, targets, x.cur);
      AllIndirect(g, q, n, x.cur, Get(q, x));
      AllStored(g, q, n, x.cur, targets, Get(q, x));
    }
  }

  lemma StoreTransfer(g: Graph, q: Pts, x: Item)
    requires g.WellFormed() && x.loc in g.stmts && g.stmts[x.loc].Store? && g.stmts[x.loc].srcIsPointer
    ensures g.stmts[x.loc].storeDst in g.def && g.stmts[x.loc].storeSrc in g.def
    ensures var d := g.stmts[x.loc].storeDst;
      var targets := Get(q, Item(g.def[d], d));
      Transfer(g, q, x) == Gather(q, StoreItems(g, x.loc, x.cur, targets, IsStrongUpdate(g, targets)))
  {
    assert g.WellFormedStmt(x.loc);
  }

  lemma StoreRule(g: Graph, q: Pts, x: Item)
    requires g.WellFormed() && x.loc in g.stmts && g.stmts[x.loc].Store? && g.stmts[x.loc].srcIsPointer
    requires g.stmts[x.loc].storeDst in g.def && g.stmts[x.loc].storeSrc in g.def
    ensures var s, d := g.stmts[x.loc].storeSrc, g.stmts[x.loc].storeDst;
      var targets := Get(q, Item(g.def[d], d));
      Obeyed(g, q, x) <==>
        && (x.cur in targets ==> Get(q, Item(g.def[s], s)) <= Get(q, x))
        && ((exists o :: o in targets && (o != x.cur || Summary(g, o))) ==>
              forall e | Flows(g, x.loc, e, x.cur) :: Get(q, Item(e.src, x.cur)) <= Get(q, x))
  {
    hide Flows, Summary, Graph.WellFormed;
  }

  lemma AllStored(g: Graph, q: Pts, n: NodeId, obj: Id, targets: set<Id>, r: set<Id>)
    requires g.WellFormed() && n in g.stmts && g.stmts[n].Store? && g.stmts[n].srcIsPointer
    ensures Gather(q, StoreItems(g, n, obj, targets, IsStrongUpdate(g, targets))) <= r <==>
              && (obj in targets ==> Get(q, Item(g.def[g.stmts[n].storeSrc], g.stmts[n].storeSrc)) <= r)
              && ((exists o :: o in targets && o != obj) || (obj in targets && !IsStrongUpdate(g, targets)) ==>
                    Gather(q, IndirectItems(g, n, obj)) <= r)
  {
    hide Graph.WellFormed, IndirectItems, IsStrongUpdate, Gather;
    GatherWithin(q, IndirectItems(g, n, obj), r);
    GatherWithin(q, StoreItems(g, n, obj, targets, IsStrongUpdate(g, targets)), r);
  }

  /** A store keeps the old contents of `obj` unless `obj` is its only target and not a
      summary. */
  lemma OldContentsKept(g: Graph, targets: set<Id>, obj: Id)
    ensures ((exists o :: o in targets && o != obj) || (obj in targets && !IsStrongUpdate(g, targets))) <==>
            exists o :: o in targets && (o != obj || Summary(g, o))
  {
    if obj in targets && !exists o :: o in targets && o != obj { assert targets == {obj}; }
  }

  lemma GepObeyed(g: Graph, q: Pts, x: Item)
    requires g.WellFormed() && x.loc in g.stmts && g.stmts[x.loc].Gep?
    ensures Transfer(g, q, x) <= Get(q, x) <==> Obeyed(g, q, x)
  {
    assert Bases(g, q, x.loc) == Gather(q, DirectItems(g, x.loc)) by {
      forall o ensures o in Bases(g, q, x.loc) <==> o in Gather(q, DirectItems(g, x.loc)) {
        if o in Gather(q, DirectItems(g, x.loc)) {
          var y :| y in DirectItems(g, x.loc) && o in Get(q, y);
          DirectItemsAre(g, x.loc, y);
        }
      }
    }
  }

  /** The equations are the rules: a pre-solution is an assignment that obeys them. */
  lemma RuleIff(g: Graph, q: Pts, x: Item)
    requires g.WellFormed() && x.loc in g.stmts
    ensures Transfer(g, q, x) <= Get(q, x) <==> Obeyed(g, q, x)
  {
    match g.stmts[x.loc]
    case Addr(_) =>
    case Copy => AllDirect(g, q, x.loc, Get(q, x));
    case Gep => GepObeyed(g, q, x);
    case Load(_, _) => LoadObeyed(g, q, x);
    case Store(_, _, _) => StoreObeyed(g, q, x);
    case MemRegion => AllIndirect(g, q, x.loc, x.cur, Get(q, x));
  }

  /** The least solution obeys every statement's rule, and is below every assignment
      that does. */
  lemma LeastObeysRules(g: Graph)
    requires g.WellFormed()
    ensures ObeysRules(g, Least(g))
    ensures forall q: Pts | ObeysRules(g, q) :: Below(Least(g), q)
  {
    hide Transfer, Obeyed, Least, Graph.WellFormed;
    LeastIsLeastSolution(g);
    forall x | x in g.Items() ensures Obeyed(g, Least(g), x) { RuleIff(g, Least(g), x); }
    forall q: Pts | ObeysRules(g, q) ensures Below(Least(g), q) {
      forall x | x in q ensures Transfer(g, q, x) <= q[x] { RuleIff(g, q, x); }
      LeastBelow(g, q);
    }
  }

  // ---------- what stores keep and overwrite ----------

  /** An update is strong exactly if there is one target, which is no summary. */
  lemma StrongUpdateIff(g: Graph, targets: set<Id>)
    ensures IsStrongUpdate(g, targets) <==> exists o :: targets == {o} && !Summary(g, o)
  {
    if IsStrongUpdate(g, targets) {
      var o :| o in targets;
      OnlyOne(targets, o);
    }
  }

  lemma OnlyOne(s: set<Id>, x: Id)
    requires |s| == 1 && x in s
    ensures s == {x}
  {
    assert |s - {x}| == 0;
  }

  /** In every solution, hence in the least one: a store through a pointer that may
      target `obj` keeps the old contents of `obj` if the pointer has another target or
      `obj` is a summary. */
  lemma WeakStoreKeeps(g: Graph, q: Pts, n: NodeId, obj: Id, o: Id, e: Edge)
    requires g.WellFormed() && IsSolution(g, q) && n in g.stmts && obj in g.ids
    requires g.stmts[n].Store? && g.stmts[n].srcIsPointer
    requires var d := g.stmts[n].storeDst; o in Get(q, Item(g.def[d], d)) && (o != obj || Summary(g, obj))
    requires Flows(g, n, e, obj)
    ensures Get(q, Item(e.src, obj)) <= Get(q, Item(n, obj))
  {
    hide Graph.WellFormed, Transfer, Flows, Summary;
    assert Item(n, obj) in g.Items();
    RuleIff(g, q, Item(n, obj));
  }

  /** A store whose pointer targets only `obj`, which is not a summary, leaves nothing
      but the stored value there. */
  lemma StrongStoreOverwrites(g: Graph, q: Pts, n: NodeId, obj: Id)
    requires g.WellFormed() && IsSolution(g, q) && n in g.stmts && obj in g.ids
    requires g.stmts[n].Store? && g.stmts[n].srcIsPointer
    requires var d := g.stmts[n].storeDst; Get(q, Item(g.def[d], d)) == {obj} && !Summary(g, obj)
    ensures var s := g.stmts[n].storeSrc; Get(q, Item(n, obj)) == Get(q, Item(g.def[s], s))
  {
    var s := g.stmts[n].storeSrc;
    assert Selected(g, q, Item(n, obj)) == {Item(g.def[s], s)};
  }

  // ---------- executions ----------

  type Cell = nat

  /** Memory cells, each a part of one object, and the objects that a store or memory
      region may define. */
  datatype Memory = Memory(obj: map<Cell, Id>, defines: map<NodeId, set<Id>>)

  /** What has been computed at each node, what each cell holds, and which node last
      defined each object. A missing value is null, or no pointer. */
  datatype Machine = Machine(val: map<NodeId, Cell>, mem: map<Cell, Cell>, definer: map<Id, NodeId>)

  /** Objects that are no summaries have one cell. */
  ghost predicate Fits(g: Graph, m: Memory) {
    && g.WellFormed()
    && (forall c | c in m.obj :: m.obj[c] in g.ids)
    && (forall c, d | c in m.obj && d in m.obj && m.obj[c] == m.obj[d] && !Summary(g, m.obj[c]) :: c == d)
  }

  /** An indirect edge leads into `n` from the node that last defined `o`; constants are
      never stored to. */
  ghost predicate Linked(g: Graph, s: Machine, n: NodeId, o: Id) {
    o in s.definer && o !in g.constObjs ==> exists e :: Flows(g, n, e, o) && e.src == s.definer[o]
  }

  /** From now on `n` is the last to have defined the objects in `os`. */
  function DefinedAt(definer: map<Id, NodeId>, n: NodeId, os: set<Id>): map<Id, NodeId> {
    definer + map o | o in os :: n
  }

  ghost predicate AddrRuns(m: Memory, s: Machine, n: NodeId, o: Id, c: Cell, s': Machine) {
    c in m.obj && m.obj[c] == o && s' == s.(val := s.val[n := c])
  }

  /** The value comes along one of the direct edges, as in a phi or a call. */
  ghost predicate CopyRuns(g: Graph, s: Machine, n: NodeId, e: Edge, p: Id, s': Machine) {
    ComesFrom(g, n, e, p) && s' == s.(val := if e.src in s.val then s.val[n := s.val[e.src]] else s.val - {n})
  }

  /** A GEP computes a cell of one of the objects that it gives for its base alone. */
  ghost predicate GepRuns(g: Graph, m: Memory, s: Machine, n: NodeId, e: Edge, p: Id, base: Cell, c: Cell,
                          s': Machine) {
    && ComesFrom(g, n, e, p) && e.src in s.val && s.val[e.src] == base && base in m.obj
    && c in m.obj && m.obj[c] in g.gep(n, {m.obj[base]}) && s' == s.(val := s.val[n := c])
  }

  /** `c` is the cell to which pointer `p` points. */
  ghost predicate PointsAt(g: Graph, m: Memory, s: Machine, p: Id, c: Cell) {
    p in g.def && g.def[p] in s.val && s.val[g.def[p]] == c && c in m.obj
  }

  ghost predicate LoadRuns(g: Graph, m: Memory, s: Machine, n: NodeId, p: Id, c: Cell, s': Machine) {
    && PointsAt(g, m, s, p, c) && Linked(g, s, n, m.obj[c])
    && s' == s.(val := if c in s.mem then s.val[n := s.mem[c]] else s.val - {n})
  }

  /** The objects that `n` defines come to it from the nodes that last defined them. */
  ghost predicate Defines(g: Graph, m: Memory, s: Machine, n: NodeId) {
    n in m.defines && forall o | o in m.defines[n] :: o in g.ids && Linked(g, s, n, o)
  }

  ghost predicate StoreRuns(g: Graph, m: Memory, s: Machine, n: NodeId, v: Id, p: Id, c: Cell, s': Machine) {
    && PointsAt(g, m, s, p, c) && Defines(g, m, s, n) && m.obj[c] in m.defines[n] && m.obj[c] !in g.constObjs
    && v in g.def
    && s' == s.(mem := if g.def[v] in s.val then s.mem[c := s.val[g.def[v]]] else s.mem - {c},
                definer := DefinedAt(s.definer, n, m.defines[n]))
  }

  /** One execution of the statement at node `n`. */
  ghost predicate Executes(g: Graph, m: Memory, s: Machine, n: NodeId, s': Machine)
    requires g.WellFormed() && n in g.stmts
  {
    match g.stmts[n]
    case Addr(o) => exists c :: AddrRuns(m, s, n, o, c, s')
    case Copy => exists e, p :: CopyRuns(g, s, n, e, p, s')
    case Gep => exists e, p, base, c :: GepRuns(g, m, s, n, e, p, base, c, s')
    case Load(true, p) => exists c :: LoadRuns(g, m, s, n, p, c, s')
    case Load(false, _) => s' == s.(val := s.val - {n})
    case Store(true, v, p) => exists c :: StoreRuns(g, m, s, n, v, p, c, s')
    case Store(false, _, _) => exists cs :: s' == s.(mem := s.mem - cs)
    case MemRegion => Defines(g, m, s, n) && s' == s.(definer := DefinedAt(s.definer, n, m.defines[n]))
  }

  /** A run from the empty store. */
  ghost predicate Run(g: Graph, m: Memory, nodes: seq<NodeId>, stores: seq<Machine>)
    requires g.WellFormed()
  {
    && |stores| == |nodes| + 1 && stores[0] == Machine(map[], map[], map[])
    && forall k | 0 <= k < |nodes| :: nodes[k] in g.stmts && Executes(g, m, stores[k], nodes[k], stores[k + 1])
  }

  /** The pointer computed at `n` is in the set of `n`. */
  ghost predicate ValueOk(g: Graph, m: Memory, q: Pts, n: NodeId, c: Cell) {
    g.IsTopLevel(n) && c in m.obj && forall v | v in g.ids :: m.obj[c] in Get(q, Item(n, v))
  }

  /** The pointer `d` in cell `c` is in the set of the cell's object at the node that
      last defined it. */
  ghost predicate CellOk(g: Graph, m: Memory, q: Pts, definer: map<Id, NodeId>, c: Cell, d: Cell) {
    && c in m.obj && d in m.obj && m.obj[c] in definer && m.obj[c] !in g.constObjs
    && m.obj[d] in Get(q, Item(definer[m.obj[c]], m.obj[c]))
  }

  ghost predicate Covers(g: Graph, m: Memory, q: Pts, s: Machine) {
    && (forall n | n in s.val :: ValueOk(g, m, q, n, s.val[n]))
    && (forall c | c in s.mem :: CellOk(g, m, q, s.definer, c, s.mem[c]))
  }

  lemma ObeyedAt(g: Graph, q: Pts, n: NodeId, v: Id)
    requires g.WellFormed() && ObeysRules(g, q) && n in g.stmts && v in g.ids
    ensures Obeyed(g, q, Item(n, v))
  {
    assert Item(n, v) in g.Items();
  }

  lemma SourceInIds(g: Graph, n: NodeId, e: Edge, p: Id)
    requires g.WellFormed() && n in g.stmts && ComesFrom(g, n, e, p)
    ensures p in g.ids
  {
    assert g.WellFormedEdges(n);
  }

  lemma PointerInIds(g: Graph, n: NodeId, p: Id)
    requires g.WellFormed() && n in g.stmts
    requires g.stmts[n] == Load(true, p) ||
             (g.stmts[n].Store? && g.stmts[n].srcIsPointer && (g.stmts[n].storeSrc == p || g.stmts[n].storeDst == p))
    ensures p in g.ids && p in g.def
  {
    assert g.WellFormedStmt(n) && g.DefinedPointer(p);
  }

  lemma TargetCovered(g: Graph, m: Memory, q: Pts, s: Machine, p: Id, c: Cell)
    requires Covers(g, m, q, s) && PointsAt(g, m, s, p, c) && p in g.ids
    ensures m.obj[c] in Get(q, Item(g.def[p], p))
  {
    assert ValueOk(g, m, q, g.def[p], s.val[g.def[p]]);
  }

  lemma AddrStep(g: Graph, m: Memory, q: Pts, s: Machine, n: NodeId, o: Id, c: Cell, s': Machine)
    requires g.WellFormed() && ObeysRules(g, q) && Covers(g, m, q, s) && n in g.stmts && g.stmts[n] == Addr(o)
    requires AddrRuns(m, s, n, o, c, s')
    ensures Covers(g, m, q, s')
  {
    hide Graph.WellFormed, ObeysRules;
    forall v | v in g.ids ensures m.obj[c] in Get(q, Item(n, v)) { ObeyedAt(g, q, n, v); }
    assert ValueOk(g, m, q, n, c);
  }

  lemma CopyStep(g: Graph, m: Memory, q: Pts, s: Machine, n: NodeId, e: Edge, p: Id, s': Machine)
    requires g.WellFormed() && ObeysRules(g, q) && Covers(g, m, q, s) && n in g.stmts && g.stmts[n].Copy?
    requires CopyRuns(g, s, n, e, p, s')
    ensures Covers(g, m, q, s')
  {
    hide Graph.WellFormed, ObeysRules;
    if e.src in s.val {
      SourceInIds(g, n, e, p);
      var c := s.val[e.src];
      assert ValueOk(g, m, q, e.src, c);
      forall v | v in g.ids ensures m.obj[c] in Get(q, Item(n, v)) { ObeyedAt(g, q, n, v); }
      assert ValueOk(g, m, q, n, c);
    }
  }

  lemma GepStep(g: Graph, m: Memory, q: Pts, s: Machine, n: NodeId, e: Edge, p: Id, base: Cell, c: Cell, s': Machine)
    requires g.WellFormed() && ObeysRules(g, q) && Covers(g, m, q, s) && n in g.stmts && g.stmts[n].Gep?
    requires GepRuns(g, m, s, n, e, p, base, c, s')
    ensures Covers(g, m, q, s')
  {
    hide Graph.WellFormed, ObeysRules, ComesFrom, Bases;
    SourceInIds(g, n, e, p);
    assert ValueOk(g, m, q, e.src, base);
    BasesCovered(g, q, n, e, p, m.obj[base]);
    forall v | v in g.ids ensures m.obj[c] in Get(q, Item(n, v)) { GepObeys(g, q, n, v); }
    assert ValueOk(g, m, q, n, c);
  }

  lemma GepObeys(g: Graph, q: Pts, n: NodeId, v: Id)
    requires g.WellFormed() && ObeysRules(g, q) && n in g.stmts && g.stmts[n].Gep? && v in g.ids
    ensures g.gep(n, Bases(g, q, n)) <= Get(q, Item(n, v))
  {
    hide Graph.WellFormed, ObeysRules, Bases;
    ObeyedAt(g, q, n, v);
  }

  /** What a GEP gives for one base it also gives for all that it may have. */
  lemma BasesCovered(g: Graph, q: Pts, n: NodeId, e: Edge, p: Id, o: Id)
    requires g.WellFormed() && ObeysRules(g, q) && n in g.stmts && ComesFrom(g, n, e, p)
    requires o in Get(q, Item(e.src, p))
    ensures g.gep(n, {o}) <= g.gep(n, Bases(g, q, n))
  {
    assert o in Bases(g, q, n);
    assert {o} <= Bases(g, q, n) <= g.ids;
  }

  lemma LoadStep(g: Graph, m: Memory, q: Pts, s: Machine, n: NodeId, p: Id, c: Cell, s': Machine)
    requires g.WellFormed() && ObeysRules(g, q) && Covers(g, m, q, s) && n in g.stmts && g.stmts[n] == Load(true, p)
    requires LoadRuns(g, m, s, n, p, c, s')
    ensures Covers(g, m, q, s')
  {
    hide Graph.WellFormed, ObeysRules, Flows;
    if c in s.mem {
      PointerInIds(g, n, p);
      TargetCovered(g, m, q, s, p, c);
      var o, d := m.obj[c], s.mem[c];
      assert CellOk(g, m, q, s.definer, c, d);
      var e :| Flows(g, n, e, o) && e.src == s.definer[o];
      forall v | v in g.ids ensures m.obj[d] in Get(q, Item(n, v)) { ObeyedAt(g, q, n, v); }
      assert ValueOk(g, m, q, n, d);
    }
  }

  /** What flows into `n` for an object it defines is covered there. */
  lemma KeptCovered(g: Graph, m: Memory, q: Pts, s: Machine, n: NodeId, c: Cell, d: Cell)
    requires g.WellFormed() && n in g.stmts && Defines(g, m, s, n) && CellOk(g, m, q, s.definer, c, d)
    requires forall e | Flows(g, n, e, m.obj[c]) :: Get(q, Item(e.src, m.obj[c])) <= Get(q, Item(n, m.obj[c]))
    ensures CellOk(g, m, q, DefinedAt(s.definer, n, m.defines[n]), c, d)
  {
    var o := m.obj[c];
    if o in m.defines[n] {
      var e :| Flows(g, n, e, o) && e.src == s.definer[o];
    }
  }

  lemma NotDefined(g: Graph, m: Memory, q: Pts, s: Machine, n: NodeId, c: Cell, d: Cell)
    requires n in m.defines && CellOk(g, m, q, s.definer, c, d) && m.obj[c] !in m.defines[n]
    ensures CellOk(g, m, q, DefinedAt(s.definer, n, m.defines[n]), c, d)
  {
  }

  lemma RegionStep(g: Graph, m: Memory, q: Pts, s: Machine, n: NodeId, s': Machine)
    requires g.WellFormed() && ObeysRules(g, q) && Covers(g, m, q, s) && n in g.stmts && g.stmts[n].MemRegion?
    requires Defines(g, m, s, n) && s' == s.(definer := DefinedAt(s.definer, n, m.defines[n]))
    ensures Covers(g, m, q, s')
  {
    hide Graph.WellFormed, ObeysRules, Flows, DefinedAt, CellOk, ValueOk;
    forall c | c in s.mem ensures CellOk(g, m, q, s'.definer, c, s.mem[c]) {
      assert CellOk(g, m, q, s.definer, c, s.mem[c]);
      assert c in m.obj by { CellIsCell(g, m, q, s.definer, c, s.mem[c]); }
      if m.obj[c] in m.defines[n] {
        ObeyedAt(g, q, n, m.obj[c]);
        KeptCovered(g, m, q, s, n, c, s.mem[c]);
      } else {
        NotDefined(g, m, q, s, n, c, s.mem[c]);
      }
    }
  }

  lemma CellIsCell(g: Graph, m: Memory, q: Pts, definer: map<Id, NodeId>, c: Cell, d: Cell)
    requires CellOk(g, m, q, definer, c, d)
    ensures c in m.obj && d in m.obj
  {
  }

  /** A store to `target` leaves another cell as it was: that is of another object, or
      of a summary. */
  lemma OtherCell(g: Graph, m: Memory, q: Pts, s: Machine, n: NodeId, p: Id, target: Cell, c: Cell, d: Cell)
    requires Fits(g, m) && ObeysRules(g, q) && n in g.stmts && Defines(g, m, s, n)
    requires g.stmts[n].Store? && g.stmts[n].srcIsPointer && g.stmts[n].storeDst == p
    requires target in m.obj && p in g.def && m.obj[target] in Get(q, Item(g.def[p], p))
    requires c != target && CellOk(g, m, q, s.definer, c, d)
    ensures CellOk(g, m, q, DefinedAt(s.definer, n, m.defines[n]), c, d)
  {
    if m.obj[c] in m.defines[n] {
      assert m.obj[target] != m.obj[c] || Summary(g, m.obj[target]);
      hide Graph.WellFormed, Fits, ObeysRules, Flows, CellOk, Summary;
      ObeyedAt(g, q, n, m.obj[c]);
      KeptCovered(g, m, q, s, n, c, d);
    } else {
      NotDefined(g, m, q, s, n, c, d);
    }
  }

  lemma StoredCell(g: Graph, m: Memory, q: Pts, s: Machine, n: NodeId, v: Id, p: Id, c: Cell)
    requires g.WellFormed() && ObeysRules(g, q) && Covers(g, m, q, s) && n in g.stmts && g.stmts[n] == Store(true, v, p)
    requires PointsAt(g, m, s, p, c) && Defines(g, m, s, n) && m.obj[c] in m.defines[n] && m.obj[c] !in g.constObjs
    requires v in g.def && g.def[v] in s.val && m.obj[c] in Get(q, Item(g.def[p], p))
    ensures CellOk(g, m, q, DefinedAt(s.definer, n, m.defines[n]), c, s.val[g.def[v]])
  {
    hide Graph.WellFormed, ObeysRules, Flows, Linked;
    PointerInIds(g, n, v);
    assert ValueOk(g, m, q, g.def[v], s.val[g.def[v]]);
    ObeyedAt(g, q, n, m.obj[c]);
  }

  lemma StoreStep(g: Graph, m: Memory, q: Pts, s: Machine, n: NodeId, v: Id, p: Id, target: Cell, s': Machine)
    requires Fits(g, m) && ObeysRules(g, q) && Covers(g, m, q, s) && n in g.stmts && g.stmts[n] == Store(true, v, p)
    requires StoreRuns(g, m, s, n, v, p, target, s')
    ensures Covers(g, m, q, s')
  {
    hide Graph.WellFormed, ObeysRules, Fits, CellOk, ValueOk, DefinedAt, PointsAt, Defines;
    assert g.WellFormed() by { FitsGraph(g, m); }
    PointerInIds(g, n, p);
    TargetCovered(g, m, q, s, p, target);
    assert target in m.obj by { TargetIsCell(g, m, s, p, target); }
    forall c | c in s'.mem ensures CellOk(g, m, q, s'.definer, c, s'.mem[c]) {
      if c == target {
        StoredCell(g, m, q, s, n, v, p, c);
      } else {
        OtherCell(g, m, q, s, n, p, target, c, s.mem[c]);
      }
    }
  }

  lemma TargetIsCell(g: Graph, m: Memory, s: Machine, p: Id, c: Cell)
    requires PointsAt(g, m, s, p, c)
    ensures c in m.obj
  {
  }

  lemma StepCovered(g: Graph, m: Memory, q: Pts, s: Machine, n: NodeId, s': Machine)
    requires Fits(g, m) && ObeysRules(g, q) && Covers(g, m, q, s) && g.WellFormed() && n in g.stmts
    requires Executes(g, m, s, n, s')
    ensures Covers(g, m, q, s')
  {
    hide AddrRuns, CopyRuns, GepRuns, LoadRuns, StoreRuns, Fits, ObeysRules, Graph.WellFormed, Defines;
    match g.stmts[n]
    case Addr(o) =>
      var c :| AddrRuns(m, s, n, o, c, s');
      AddrStep(g, m, q, s, n, o, c, s');
    case Copy =>
      var e, p :| CopyRuns(g, s, n, e, p, s');
      CopyStep(g, m, q, s, n, e, p, s');
    case Gep =>
      var e, p, base, c :| GepRuns(g, m, s, n, e, p, base, c, s');
      GepStep(g, m, q, s, n, e, p, base, c, s');
    case Load(isPtr, p) =>
      if isPtr {
        var c :| LoadRuns(g, m, s, n, p, c, s');
        LoadStep(g, m, q, s, n, p, c, s');
      }
    case Store(isPtr, v, p) =>
      if isPtr {
        var c :| StoreRuns(g, m, s, n, v, p, c, s');
        StoreStep(g, m, q, s, n, v, p, c, s');
      }
    case MemRegion => RegionStep(g, m, q, s, n, s');
  }

  lemma {:induction false} RunCovered(g: Graph, m: Memory, q: Pts, nodes: seq<NodeId>, stores: seq<Machine>, k: nat)
    requires g.WellFormed() && Fits(g, m) && ObeysRules(g, q) && Run(g, m, nodes, stores) && k <= |nodes|
    ensures Covers(g, m, q, stores[k])
  {
    hide Executes, Fits, ObeysRules, Graph.WellFormed;
    if k > 0 {
      RunCovered(g, m, q, nodes, stores, k - 1);
      assert Executes(g, m, stores[k - 1], nodes[k - 1], stores[k - 1 + 1]);
      StepCovered(g, m, q, stores[k - 1], nodes[k - 1], stores[k]);
    }
  }

  /** Soundness: whatever pointer a run computes for `id`, its object is in the least
      solution at the definition of `id`, strong updates included. */
  lemma LeastCoversRuns(g: Graph, m: Memory, nodes: seq<NodeId>, stores: seq<Machine>, k: nat, id: Id)
    requires g.WellFormed() && Fits(g, m) && Run(g, m, nodes, stores) && k <= |nodes|
    requires g.DefinedPointer(id) && g.def[id] in stores[k].val
    ensures stores[k].val[g.def[id]] in m.obj
    ensures m.obj[stores[k].val[g.def[id]]] in Get(Least(g), Item(g.def[id], id))
  {
    hide Fits, ObeysRules, Least, Graph.WellFormed, Executes;
    LeastObeysRules(g);
    RunCovered(g, m, Least(g), nodes, stores, k);
    assert Covers(g, m, Least(g), stores[k]);
  }

  /** The answer to a query that stays in budget covers every run. */
  lemma AnswerCoversRuns(g: Graph, m: Memory, nodes: seq<NodeId>, stores: seq<Machine>, k: nat, id: Id,
                         budget: nat, pts: set<Id>)
    requires g.WellFormed() && Fits(g, m) && Run(g, m, nodes, stores) && k <= |nodes|
    requires AnswerSound(g, id, budget, pts, true) && g.def[id] in stores[k].val
    ensures stores[k].val[g.def[id]] in m.obj && m.obj[stores[k].val[g.def[id]]] in pts
  {
    hide Run, Fits, Least, Graph.WellFormed;
    LeastCoversRuns(g, m, nodes, stores, k, id);
  }

  lemma FitsGraph(g: Graph, m: Memory)
    requires Fits(g, m)
    ensures g.WellFormed()
  {
  }
}
