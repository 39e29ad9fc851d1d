/** The sparse value-flow graph a points-to query walks over, the equation each
    statement imposes on the points-to sets, and the least solution of those
    equations. */
module ValueFlow {

  type NodeId = nat
  type Id = nat

  /** A query item: a variable or object `cur` at a value-flow node `loc`. */
  datatype Item = Item(loc: NodeId, cur: Id)

  /** The kinds of value-flow nodes the solver tells apart. `Copy` stands for
      copy, phi, parameter, return and null-pointer nodes. */
  datatype Stmt =
    | Addr(obj: Id)
    | Copy
    | Gep
    | Load(dstIsPointer: bool, loadSrc: Id)
    | Store(srcIsPointer: bool, storeSrc: Id, storeDst: Id)
    | MemRegion

  datatype Edge =
    | Direct(src: NodeId, dst: NodeId)
    | Indirect(src: NodeId, dst: NodeId, guard: set<Id>)

  /** A points-to assignment; a missing item has the empty set, as a lookup in
      the solver's cache maps gives. */
  type Pts = map<Item, set<Id>>

  datatype Graph = Graph(
    stmts: map<NodeId, Stmt>,
    ids: set<Id>,
    inEdges: map<NodeId, seq<Edge>>,
    outEdges: map<NodeId, seq<Edge>>,
    lhs: map<NodeId, Id>,            // top-level pointer a node defines
    def: map<Id, NodeId>,            // node that defines a top-level pointer
    funPtrs: map<NodeId, seq<Id>>,   // function pointers resolved at a node
    constObjs: set<Id>,
    heapObjs: set<Id>,
    arrayObjs: set<Id>,
    fieldInsensitiveObjs: set<Id>,
    recursiveLocals: set<Id>,
    gep: (NodeId, set<Id>) -> set<Id>)
  {
    predicate IsTopLevel(n: NodeId) {
      n in stmts && !stmts[n].Store? && !stmts[n].MemRegion?
    }

    ghost predicate WellFormed() {
      && inEdges.Keys == outEdges.Keys == funPtrs.Keys == stmts.Keys
      && (forall n | n in stmts :: WellFormedEdges(n) && WellFormedStmt(n) && WellFormedFunPtrs(n))
      && (forall n, s | n in stmts && s <= ids :: gep(n, s) <= ids)
      && (forall n, s, t | n in stmts && s <= t <= ids :: gep(n, s) <= gep(n, t))
    }

    /** In and out edges mirror each other, and a direct edge leaves a node
        that defines a top-level pointer. */
    ghost predicate WellFormedEdges(n: NodeId)
      requires n in inEdges && n in outEdges
    {
      && (forall e | e in inEdges[n] ::
            && e.dst == n && e.src in outEdges && e in outEdges[e.src]
            && (e.Direct? ==> IsTopLevel(e.src) && e.src in lhs && lhs[e.src] in ids))
      && (forall e | e in outEdges[n] :: e.src == n && e.dst in inEdges && e in inEdges[e.dst])
    }

    ghost predicate DefinedPointer(p: Id) {
      p in ids && p in def && IsTopLevel(def[p])
    }

    ghost predicate WellFormedStmt(n: NodeId)
      requires n in stmts && n in inEdges
    {
      match stmts[n]
      case Addr(obj) => obj in ids
      case Load(isPtr, p) => isPtr ==> DefinedPointer(p) && Direct(def[p], n) in inEdges[n]
      case Store(isPtr, s, d) => isPtr ==>
        && DefinedPointer(d) && Direct(def[d], n) in inEdges[n]
        && DefinedPointer(s) && Direct(def[s], n) in inEdges[n]
      case _ => true
    }

    ghost predicate WellFormedFunPtrs(n: NodeId)
      requires n in funPtrs
    {
      forall p | p in funPtrs[n] :: DefinedPointer(p)
    }

    ghost function Items(): set<Item> {
      set n, v | n in stmts && v in ids :: Item(n, v)
    }
  }

  function Get(p: Pts, x: Item): set<Id> {
    if x in p then p[x] else {}
  }

  // ---------- what a statement reads ----------

  /** The items direct edges `es` lead back to. */
  ghost function DirectSources(g: Graph, es: seq<Edge>): set<Item> {
    set e | e in es && e.Direct? && e.src in g.lhs :: Item(e.src, g.lhs[e.src])
  }

  /** The items indirect edges `es` lead back to for object `obj`. */
  ghost function IndirectSources(es: seq<Edge>, obj: Id): set<Item> {
    set e | e in es && e.Indirect? && obj in e.guard :: Item(e.src, obj)
  }

  ghost function DirectItems(g: Graph, n: NodeId): set<Item>
    requires g.WellFormed() && n in g.stmts
  {
    DirectSources(g, g.inEdges[n])
  }

  ghost function IndirectItems(g: Graph, n: NodeId, obj: Id): set<Item>
    requires g.WellFormed() && n in g.stmts
  {
    if obj in g.constObjs then {} else IndirectSources(g.inEdges[n], obj)
  }

  ghost function LoadItems(g: Graph, n: NodeId, objs: set<Id>): set<Item>
    requires g.WellFormed() && n in g.stmts
  {
    set obj, x | obj in objs && x in IndirectItems(g, n, obj) :: x
  }

  /** A store to a single non-summary object overwrites it. */
  predicate IsStrongUpdate(g: Graph, targets: set<Id>) {
    && |targets| == 1
    && forall v | v in targets ::
         && v !in g.heapObjs && v !in g.arrayObjs
         && v !in g.fieldInsensitiveObjs && v !in g.recursiveLocals
  }

  /** The items a store passes on for object `obj`, once `seen` of its targets
      have been looked at: the stored value if `obj` is a target, the old
      contents if another target was seen or the update is weak. */
  ghost function StoreItems(g: Graph, n: NodeId, obj: Id, seen: set<Id>, strong: bool): set<Item>
    requires g.WellFormed() && n in g.stmts && g.stmts[n].Store? && g.stmts[n].srcIsPointer
  {
    (if obj in seen then {Item(g.def[g.stmts[n].storeSrc], g.stmts[n].storeSrc)} else {}) +
    (if (exists o :: o in seen && o != obj) || (obj in seen && !strong)
     then IndirectItems(g, n, obj) else {})
  }

  /** The items that say which objects a load or store dereferences. */
  ghost function PointerItems(g: Graph, n: NodeId): set<Item>
    requires g.WellFormed() && n in g.stmts
  {
    match g.stmts[n]
    case Load(true, p) => {Item(g.def[p], p)}
    case Store(true, _, d) => {Item(g.def[d], d)}
    case _ => {}
  }

  /** The items whose points-to sets flow into item `x` under assignment `p`. */
  ghost function Selected(g: Graph, p: Pts, x: Item): set<Item>
    requires g.WellFormed() && x.loc in g.stmts
  {
    match g.stmts[x.loc]
    case Addr(_) => {}
    case Copy => DirectItems(g, x.loc)
    case Gep => DirectItems(g, x.loc)
    case Load(isPtr, q) =>
      if isPtr then LoadItems(g, x.loc, Get(p, Item(g.def[q], q))) else {}
    case Store(isPtr, _, d) =>
      if isPtr then
        var targets := Get(p, Item(g.def[d], d));
        StoreItems(g, x.loc, x.cur, targets, IsStrongUpdate(g, targets))
      else {}
    case MemRegion => IndirectItems(g, x.loc, x.cur)
  }

  ghost function Reads(g: Graph, p: Pts, x: Item): set<Item>
    requires g.WellFormed() && x.loc in g.stmts
  {
    PointerItems(g, x.loc) + Selected(g, p, x)
  }

  // ---------- the equations ----------

  /** The union of the points-to sets of `xs`. */
  ghost function Gather(p: Pts, xs: set<Item>): set<Id> {
    set x, o | x in xs && o in Get(p, x) :: o
  }

  /** The right-hand side of item `x`'s equation. */
  ghost function Transfer(g: Graph, p: Pts, x: Item): set<Id>
    requires g.WellFormed() && x.loc in g.stmts
  {
    match g.stmts[x.loc]
    case Addr(obj) => {obj}
    case Gep => g.gep(x.loc, Gather(p, Selected(g, p, x)))
    case _ => Gather(p, Selected(g, p, x))
  }

  /** One points-to set inside `ids` for each item. */
  ghost predicate IsAssignment(g: Graph, p: Pts) {
    p.Keys == g.Items() && forall x | x in p :: p[x] <= g.ids
  }

  ghost predicate Below(p: Pts, q: Pts) {
    forall x :: Get(p, x) <= Get(q, x)
  }

  ghost predicate IsPreSolution(g: Graph, p: Pts)
    requires g.WellFormed()
  {
    IsAssignment(g, p) && forall x | x in p :: Transfer(g, p, x) <= p[x]
  }

  ghost predicate IsSolution(g: Graph, p: Pts)
    requires g.WellFormed()
  {
    IsAssignment(g, p) && forall x | x in p :: p[x] == Transfer(g, p, x)
  }

  lemma GatherMonotone(p: Pts, q: Pts, xs: set<Item>, ys: set<Item>)
    requires Below(p, q) && xs <= ys
    ensures Gather(p, xs) <= Gather(q, ys)
  {
  }

  lemma GatherInIds(g: Graph, p: Pts, xs: set<Item>)
    requires IsAssignment(g, p)
    ensures Gather(p, xs) <= g.ids
  {
  }

  /** A growing target set never takes a stored value away, strong updates
      included: no target blocks everything, one target passes on either the
      stored value or the old contents, two targets always pass the old ones. */
  lemma StoreRuleMonotone(g: Graph, n: NodeId, obj: Id, s: set<Id>, t: set<Id>)
    requires g.WellFormed() && n in g.stmts && g.stmts[n].Store? && g.stmts[n].srcIsPointer
    requires s <= t
    ensures StoreItems(g, n, obj, s, IsStrongUpdate(g, s)) <= StoreItems(g, n, obj, t, IsStrongUpdate(g, t))
    ensures StoreItems(g, n, obj, {}, IsStrongUpdate(g, {})) == {}
  {
    if obj in s && !(exists o :: o in s && o != obj) {
      assert s == {obj};
      if t != s {
        var o :| o in t && o !in s;
        assert o in t && o != obj;
      }
    }
  }

  lemma SelectedMonotone(g: Graph, p: Pts, q: Pts, x: Item)
    requires g.WellFormed() && x.loc in g.stmts && Below(p, q)
    ensures Selected(g, p, x) <= Selected(g, q, x)
  {
    match g.stmts[x.loc]
    case Load(true, v) => assert Get(p, Item(g.def[v], v)) <= Get(q, Item(g.def[v], v));
    case Store(true, _, d) =>
      StoreRuleMonotone(g, x.loc, x.cur, Get(p, Item(g.def[d], d)), Get(q, Item(g.def[d], d)));
    case _ =>
  }

  lemma TransferMonotone(g: Graph, p: Pts, q: Pts, x: Item)
    requires g.WellFormed() && x.loc in g.stmts && Below(p, q) && IsAssignment(g, q)
    ensures Transfer(g, p, x) <= Transfer(g, q, x)
  {
    SelectedMonotone(g, p, q, x);
    GatherMonotone(p, q, Selected(g, p, x), Selected(g, q, x));
    GatherInIds(g, q, Selected(g, q, x));
  }

  lemma TransferInIds(g: Graph, p: Pts, x: Item)
    requires g.WellFormed() && x.loc in g.stmts && IsAssignment(g, p)
    ensures Transfer(g, p, x) <= g.ids
  {
    GatherInIds(g, p, Selected(g, p, x));
  }

  // ---------- the least solution ----------

  /** Object `o` is in every pre-solution's set for `x`. */
  ghost predicate InEvery(g: Graph, x: Item, o: Id)
    requires g.WellFormed()
  {
    forall p: Pts | IsPreSolution(g, p) :: o in Get(p, x)
  }

  ghost function Least(g: Graph): Pts
    requires g.WellFormed()
  {
    map x | x in g.Items() :: set o | o in g.ids && InEvery(g, x, o)
  }

  lemma LeastBelow(g: Graph, p: Pts)
    requires g.WellFormed() && IsPreSolution(g, p)
    ensures Below(Least(g), p)
  {
  }

  /** The intersection of all pre-solutions solves the equations, and no
      solution is smaller at any item. */
  lemma LeastIsLeastSolution(g: Graph)
    requires g.WellFormed()
    ensures IsSolution(g, Least(g))
    ensures forall p: Pts | IsSolution(g, p) :: Below(Least(g), p)
  {
    var least := Least(g);
    forall x | x in g.Items() ensures Transfer(g, least, x) <= least[x] {
      TransferInIds(g, least, x);
      forall o, p: Pts | o in Transfer(g, least, x) && IsPreSolution(g, p) ensures o in Get(p, x) {
        LeastBelow(g, p);
        TransferMonotone(g, least, p, x);
      }
    }
    // Applying the equations once more gives a pre-solution below the least one.
    var once: Pts := map x | x in g.Items() :: Transfer(g, least, x);
    forall x | x in g.Items() ensures Transfer(g, once, x) <= once[x] {
      TransferMonotone(g, once, least, x);
      TransferInIds(g, least, x);
    }
    forall x | x in g.Items() ensures once[x] <= g.ids { TransferInIds(g, least, x); }
    LeastBelow(g, once);
    forall x | x in g.Items() ensures least[x] == Transfer(g, least, x) {
      assert Get(least, x) <= Get(once, x);
    }
    forall p: Pts | IsSolution(g, p) ensures Below(least, p) { LeastBelow(g, p); }
  }

  /** `p` on the items in `closed`, everything elsewhere. */
  ghost function Completed(g: Graph, p: Pts, closed: set<Item>): Pts {
    map y | y in g.Items() :: if y in closed then Get(p, y) else g.ids
  }

  lemma CompletedIsPreSolution(g: Graph, p: Pts, closed: set<Item>)
    requires g.WellFormed() && IsAssignment(g, p) && closed <= g.Items()
    requires forall y | y in closed :: Transfer(g, p, y) <= Get(p, y) && Reads(g, p, y) <= closed
    ensures IsPreSolution(g, Completed(g, p, closed))
  {
    hide Transfer, Reads;
    var q := Completed(g, p, closed);
    forall y | y in q ensures Transfer(g, q, y) <= q[y] {
      if y in closed {
        forall z | z in Reads(g, p, y) ensures Get(p, z) == Get(q, z) {
          assert z in closed;
        }
        AgreeOnReads(g, p, q, y);
      } else {
        TransferInIds(g, q, y);
      }
    }
  }

  /** A closed set of items that satisfy their equations and stay below the
      least solution carries exactly the least solution. */
  lemma ClosedSolvedIsLeast(g: Graph, p: Pts, closed: set<Item>, x: Item)
    requires g.WellFormed() && IsAssignment(g, p) && Below(p, Least(g))
    requires closed <= g.Items()
    requires forall y | y in closed :: Transfer(g, p, y) <= Get(p, y) && Reads(g, p, y) <= closed
    requires x in closed
    ensures Get(p, x) == Get(Least(g), x)
  {
    hide Transfer, Reads, Graph.WellFormed, Least;
    var q := Completed(g, p, closed);
    CompletedIsPreSolution(g, p, closed);
    LeastBelow(g, q);
    assert Get(Least(g), x) <= Get(q, x) == Get(p, x) <= Get(Least(g), x);
  }

  /** A statement's equation depends only on the items it reads. */
  lemma AgreeOnReads(g: Graph, p: Pts, q: Pts, x: Item)
    requires g.WellFormed() && x.loc in g.stmts
    requires forall y | y in Reads(g, p, x) :: Get(p, y) == Get(q, y)
    ensures Transfer(g, p, x) == Transfer(g, q, x) && Reads(g, p, x) == Reads(g, q, x)
  {
    forall y | y in PointerItems(g, x.loc) ensures Get(p, y) == Get(q, y) {
      assert y in Reads(g, p, x);
    }
    assert Selected(g, p, x) == Selected(g, q, x) by {
      match g.stmts[x.loc]
      case Load(true, v) => assert Item(g.def[v], v) in PointerItems(g, x.loc);
      case Store(true, _, d) => assert Item(g.def[d], d) in PointerItems(g, x.loc);
      case _ =>
    }
    assert Gather(p, Selected(g, p, x)) == Gather(q, Selected(g, q, x)) by {
      assert forall y | y in Selected(g, p, x) :: y in Reads(g, p, x);
    }
  }
}
