/** What the two searches of the type inference follow from value to value, said without
    the lists that the searches push: the kinds of flow backwards, those forwards, and
    that both agree on calls, returns and memory. */
module Neighbours {
  import opened TwoPhase
  import opened ObjTypeInference
  import opened Options

  // ---------- backwards ----------

  /** `u` uses `v`. */
  predicate Uses(p: Program, u: ValueId, v: ValueId) {
    v in p.users && u in p.users[v]
  }

  /** `u` uses function `f` as a value. */
  predicate UsesFun(p: Program, u: ValueId, f: FunId) {
    f in p.funs && Uses(p, u, p.funs[f].self)
  }

  /** `call` is a direct call of function `f`. */
  predicate Calls(p: Program, call: ValueId, f: FunId) {
    p.Def(call).Call? && p.Def(call).callee == Some(f)
  }

  /** `call` passes `w` for parameter `k` of `f`; a variadic function takes its first
      argument for each. */
  predicate Passes(p: Program, call: ValueId, f: FunId, k: nat, w: ValueId) {
    && Calls(p, call, f)
    && if f in p.funs && p.funs[f].isVarArg then p.Def(call).args != [] && p.Def(call).args[0] == w
       else k < |p.Def(call).args| && p.Def(call).args[k] == w
  }

  /** The value of `v` may be that of `w`, in one step. */
  ghost predicate FlowsFrom(p: Program, w: ValueId, v: ValueId) {
    && v !in p.objects
    && ( || p.Def(v) == BitCast(w)
         || (p.Def(v).Phi? && w in p.Def(v).ops)
         || (p.Def(v).Load? && exists store :: Uses(p, store, p.Def(v).ptr) && p.Def(store) == Store(p.Def(v).ptr, w))
         || (p.Def(v).Argument? &&
               exists call :: UsesFun(p, call, p.Def(v).parent) && Passes(p, call, p.Def(v).parent, p.Def(v).argNo, w))
         || exists f :: f in p.funs && Calls(p, v, f) && !p.funs[f].isDeclaration && p.funs[f].returned == w)
  }

  lemma {:induction false} InFlatMap(xs: seq<ValueId>, f: ValueId -> seq<ValueId>, y: ValueId)
    ensures y in FlatMap(xs, f) <==> exists x :: x in xs && y in f(x)
  {
    if xs != [] {
      InFlatMap(xs[1..], f, y);
      assert xs == [xs[0]] + xs[1..];
    }
  }

  lemma InFilter(xs: seq<ValueId>, keep: ValueId -> bool, y: ValueId)
    ensures y in Filter(xs, keep) <==> y in xs && keep(y)
  {
    InFlatMap(xs, x => if keep(x) then [x] else [], y);
  }

  /** Backwards the search follows exactly these flows. */
  lemma BackwardsIff(p: Program, v: ValueId, w: ValueId)
    ensures w in Backwards(p, v) <==> FlowsFrom(p, w, v)
  {
    if v !in p.objects {
      match p.Def(v)
      case Load(ptr) =>
        InFlatMap(p.Users(ptr), use =>
          match p.Def(use)
          case Store(q, val) => if q == ptr then [val] else []
          case _ => [], w);
      case Argument(parent, argNo) =>
        InFlatMap(p.FunUsers(parent), use => ActualFor(p, parent, argNo, use), w);
        forall use ensures w in ActualFor(p, parent, argNo, use) <==> Passes(p, use, parent, argNo, w) {}
        forall use ensures use in p.FunUsers(parent) <==> UsesFun(p, use, parent) {}
      case _ =>
    }
  }

  // ---------- forwards ----------

  /** `x` is a load through a GEP of `v`. */
  ghost predicate LoadsField(p: Program, v: ValueId, x: ValueId) {
    p.Def(x).Load? && exists gep :: Uses(p, gep, v) && p.Def(gep).Gep? && Uses(p, x, gep)
  }

  /** `x` may load what was stored through `ptr`: it loads through `ptr` itself; or
      `ptr` addresses a field of an object, and `x` loads a field of that object, which
      is loaded from the same place or is a stack object. */
  ghost predicate MayLoadBack(p: Program, ptr: ValueId, x: ValueId) {
    || (Uses(p, x, ptr) && p.Def(x).Load?)
    || (p.Def(ptr).Gep? && var base := p.Def(ptr).base;
          || (p.Def(base).Load? && exists again ::
                Uses(p, again, p.Def(base).ptr) && again != base && p.Def(again).Load? && LoadsField(p, again, x))
          || (p.Def(base).Alloca? && LoadsField(p, base, x)))
  }

  /** `v` is passed to `f` by `call` at position `k`, and not before. */
  predicate FirstPassedAt(p: Program, call: ValueId, f: FunId, k: nat, v: ValueId) {
    Calls(p, call, f) && k < |p.Def(call).args| && p.Def(call).args[k] == v && v !in p.Def(call).args[..k]
  }

  /** The value of `v` may become that of `x`, in one step through its user `u`. */
  ghost predicate FlowsToVia(p: Program, v: ValueId, u: ValueId, x: ValueId) {
    || ((p.Def(u).BitCast? || p.Def(u).Phi?) && x == u)
    || (p.Def(u).Store? && p.Def(u).storePtr != v && MayLoadBack(p, p.Def(u).storePtr, x))
    || (p.Def(u).Return? && UsesFun(p, x, p.Def(u).fun) && Calls(p, x, p.Def(u).fun))
    || exists f, k: nat :: f in p.funs && FirstPassedAt(p, u, f, k, v) && v != p.funs[f].self &&
         if p.funs[f].isVarArg then x in p.funs[f].varArgLoads
         else !p.funs[f].isDeclaration && k < |p.funs[f].params| && x == p.funs[f].params[k]
  }

  ghost predicate FlowsTo(p: Program, v: ValueId, x: ValueId) {
    exists u :: Uses(p, u, v) && FlowsToVia(p, v, u, x)
  }

  lemma LoadsOfGepsIff(p: Program, v: ValueId, x: ValueId)
    ensures x in LoadsOfGeps(p, v) <==> LoadsField(p, v, x)
  {
    InFlatMap(Filter(p.Users(v), IsGep(p)), gep => Filter(p.Users(gep), IsLoad(p)), x);
    forall gep ensures gep in Filter(p.Users(v), IsGep(p)) <==> gep in p.Users(v) && p.Def(gep).Gep? {
      InFilter(p.Users(v), IsGep(p), gep);
    }
    forall gep ensures x in Filter(p.Users(gep), IsLoad(p)) <==> x in p.Users(gep) && p.Def(x).Load? {
      InFilter(p.Users(gep), IsLoad(p), x);
    }
  }

  lemma LoadedAgain(p: Program, base: ValueId, q: ValueId, x: ValueId)
    ensures x in FlatMap(Filter(p.Users(q), (u: ValueId) => u != base && p.Def(u).Load?), u => LoadsOfGeps(p, u)) <==>
            exists again :: again in p.Users(q) && again != base && p.Def(again).Load? && LoadsField(p, again, x)
  {
    var others := Filter(p.Users(q), (u: ValueId) => u != base && p.Def(u).Load?);
    InFlatMap(others, u => LoadsOfGeps(p, u), x);
    forall u ensures u in others <==> u in p.Users(q) && u != base && p.Def(u).Load? {
      InFilter(p.Users(q), (u: ValueId) => u != base && p.Def(u).Load?, u);
    }
    forall u ensures x in LoadsOfGeps(p, u) <==> LoadsField(p, u, x) { LoadsOfGepsIff(p, u, x); }
  }

  lemma LoadedBackIff(p: Program, ptr: ValueId, x: ValueId)
    ensures x in LoadedBack(p, ptr) <==> MayLoadBack(p, ptr, x)
  {
    InFilter(p.Users(ptr), IsLoad(p), x);
    hide LoadsField;
    if p.Def(ptr).Gep? {
      var base := p.Def(ptr).base;
      if p.Def(base).Load? { LoadedAgain(p, base, p.Def(base).ptr, x); }
      if p.Def(base).Alloca? { LoadsOfGepsIff(p, base, x); }
    }
  }

  lemma InPrefix(xs: seq<ValueId>)
    ensures forall j, k | 0 <= j < k <= |xs| :: xs[j] in xs[..k]
  {
    forall j, k | 0 <= j < k <= |xs| ensures xs[j] in xs[..k] { assert xs[..k][j] == xs[j]; }
  }

  lemma IntoCalleeIff(p: Program, v: ValueId, u: ValueId, callee: Option<FunId>, args: seq<ValueId>, x: ValueId)
    requires p.Def(u) == Call(callee, args)
    ensures x in IntoCallee(p, v, callee, args) <==> FlowsToVia(p, v, u, x)
  {
    if callee.Some? && v in args {
      var f, k := callee.value, IndexOf(args, v);
      assert FirstPassedAt(p, u, f, k, v);
      InPrefix(args);
    }
  }

  lemma ForwardsViaIff(p: Program, v: ValueId, u: ValueId, x: ValueId)
    ensures x in ForwardsVia(p, v, u) <==> FlowsToVia(p, v, u, x)
  {
    hide MayLoadBack, LoadedBack;
    match p.Def(u)
    case Store(ptr, _) => LoadedBackIff(p, ptr, x);
    case Return(f) =>
      InFilter(p.FunUsers(f), (site: ValueId) =>
        match p.Def(site)
        case Call(Some(h), _) => h == f
        case _ => false, x);
    case Call(callee, args) => IntoCalleeIff(p, v, u, callee, args, x);
    case _ =>
  }

  /** Forwards the search follows exactly these flows. */
  lemma ForwardsIff(p: Program, v: ValueId, x: ValueId)
    ensures x in Forwards(p, v) <==> FlowsTo(p, v, x)
  {
    hide FlowsToVia, ForwardsVia;
    InFlatMap(p.Users(v), Via(p, v), x);
    forall u ensures x in ForwardsVia(p, v, u) <==> FlowsToVia(p, v, u, x) { ForwardsViaIff(p, v, u, x); }
  }

  /** The instructions that show the type behind `v`: `v` itself if it is a GEP, the loads
      among its users, and the stores and GEPs that use it as their pointer. */
  lemma InferSitesIff(p: Program, v: ValueId, s: ValueId)
    ensures s in InferSites(p, v) <==>
              || (s == v && p.Def(v).Gep?)
              || (Uses(p, s, v) && (p.Def(s).Load? ||
                                      (p.Def(s).Store? && p.Def(s).storePtr == v) ||
                                      (p.Def(s).Gep? && p.Def(s).base == v)))
  {
  }

  // ---------- both directions agree ----------

  /** At a direct call of a defined function that is not variadic: what the call passes
      once flows backwards from a parameter exactly if the parameter is where it flows
      forwards. */
  lemma CallDuality(p: Program, call: ValueId, f: FunId, k: nat, w: ValueId)
    requires f in p.funs && !p.funs[f].isVarArg && !p.funs[f].isDeclaration && Calls(p, call, f)
    requires k < |p.funs[f].params| && p.Def(p.funs[f].params[k]) == Argument(f, k)
    requires forall i, j | 0 <= i < j < |p.funs[f].params| :: p.funs[f].params[i] != p.funs[f].params[j]
    requires forall i, j | 0 <= i < j < |p.Def(call).args| && p.Def(call).args[i] == w :: p.Def(call).args[j] != w
    requires w != p.funs[f].self
    ensures w in ActualFor(p, f, k, call) <==> p.funs[f].params[k] in ForwardsVia(p, w, call)
    ensures w in ActualFor(p, f, k, call) <==> k < |p.Def(call).args| && p.Def(call).args[k] == w
  {
    ForwardsViaIff(p, w, call, p.funs[f].params[k]);
    var args := p.Def(call).args;
    if k < |args| && args[k] == w {
      assert FirstPassedAt(p, call, f, k, w);
    }
  }

  /** A call takes its value from what the function returns, and that flows to the call
      through the return instruction. */
  lemma ReturnDuality(p: Program, call: ValueId, f: FunId, ret: ValueId)
    requires f in p.funs && !p.funs[f].isDeclaration && Calls(p, call, f) && UsesFun(p, call, f)
    requires call !in p.objects && p.Def(ret) == Return(f)
    ensures Backwards(p, call) == [p.funs[f].returned]
    ensures call in ForwardsVia(p, p.funs[f].returned, ret)
  {
    ForwardsViaIff(p, p.funs[f].returned, ret, call);
  }

  /** A load takes the values that are stored through the same pointer, and these flow to
      it through the stores. */
  lemma MemoryDuality(p: Program, load: ValueId, ptr: ValueId, store: ValueId, w: ValueId)
    requires p.Def(load) == Load(ptr) && load !in p.objects && p.Def(store) == Store(ptr, w) && w != ptr
    requires Uses(p, load, ptr) && Uses(p, store, ptr)
    ensures w in Backwards(p, load) && load in ForwardsVia(p, w, store)
  {
    BackwardsIff(p, load, w);
    ForwardsViaIff(p, w, store, load);
  }

  // ---------- what the queries find ----------

  /** The value of `v` may come from `s`, step by step. */
  ghost predicate ComesFrom(p: Program, path: seq<ValueId>, v: ValueId, s: ValueId) {
    && path != [] && path[0] == v && path[|path| - 1] == s
    && (forall k | 0 <= k < |path| :: path[k] in p.defs)
    && forall k | 0 <= k < |path| - 1 :: FlowsFrom(p, path[k + 1], path[k])
  }

  /** The value of `v` may reach `x`, step by step. */
  ghost predicate Reach(p: Program, path: seq<ValueId>, v: ValueId, x: ValueId) {
    && path != [] && path[0] == v && path[|path| - 1] == x
    && (forall k | 0 <= k < |path| :: path[k] in p.defs)
    && forall k | 0 <= k < |path| - 1 :: FlowsTo(p, path[k], path[k + 1])
  }

  lemma AllocGraphIs(p: Program)
    ensures var g := AllocGraph(p);
      && g.succ.Keys == g.own.Keys == p.defs.Keys
      && (forall v, w | v in p.defs :: w in g.succ[v] <==> FlowsFrom(p, w, v))
      && forall v, s | v in p.defs :: s in g.own[v] <==> s == v && s in p.objects
  {
    forall v, w ensures w in Backwards(p, v) <==> FlowsFrom(p, w, v) { BackwardsIff(p, v, w); }
    hide FlowsFrom, Backwards;
  }

  lemma InferGraphIs(p: Program)
    ensures var g := InferGraph(p);
      && g.succ.Keys == g.own.Keys == p.defs.Keys
      && (forall v, w | v in p.defs :: w in g.succ[v] <==> FlowsTo(p, v, w))
      && forall v | v in p.defs :: g.own[v] == InferSites(p, v)
  {
    forall v, w ensures w in Forwards(p, v) <==> FlowsTo(p, v, w) { ForwardsIff(p, v, w); }
    hide FlowsTo, Forwards, InferSites;
  }

  lemma SitesAre(g: Graph<ValueId>, v: ValueId, s: ValueId)
    requires g.WellFormed()
    ensures s in Sites(g, v) <==>
              exists path: seq<ValueId> ::
                  path != [] && path[0] == v && IsPath(g, {}, path) && s in g.own[path[|path| - 1]]
  {
    if s in Sites(g, v) {
      var x :| x in g.succ && Reaches(g, {}, v, x) && s in g.own[x];
      var path :| IsPath(g, {}, path) && path[0] == v && path[|path| - 1] == x;
    }
    if path: seq<ValueId> :| path != [] && path[0] == v && IsPath(g, {}, path) && s in g.own[path[|path| - 1]] {
      assert Reaches(g, {}, v, path[|path| - 1]);
    }
  }

  /** The allocation sites of a value are the objects from which it may come. */
  lemma AllocSitesIff(p: Program, v: ValueId, s: ValueId)
    requires WellFormed(p)
    ensures s in AllocSites(p, v) <==> s in p.objects && exists path :: ComesFrom(p, path, v, s)
  {
    hide FlowsFrom, Graph.WellFormed, WellFormed, AllocGraph, Sites;
    GraphsWellFormed(p);
    AllocGraphIs(p);
    SitesAre(AllocGraph(p), v, s);
    forall path: seq<ValueId> | path != [] ensures IsPath(AllocGraph(p), {}, path) <==>
                                                     ComesFrom(p, path, path[0], path[|path| - 1]) {}
    if path :| s in p.objects && ComesFrom(p, path, v, s) { assert IsPath(AllocGraph(p), {}, path); }
  }

  /** The infer sites of a value are those of the values that it may reach. */
  lemma ReachedSitesIff(p: Program, v: ValueId, s: ValueId)
    requires WellFormed(p)
    ensures s in ReachedInferSites(p, v) <==>
              exists x, path :: x in p.defs && Reach(p, path, v, x) && s in InferSites(p, x)
  {
    hide FlowsTo, Graph.WellFormed, WellFormed, InferGraph, Sites, InferSites;
    GraphsWellFormed(p);
    InferGraphIs(p);
    SitesAre(InferGraph(p), v, s);
    forall path: seq<ValueId> | path != [] ensures IsPath(InferGraph(p), {}, path) <==>
                                                     Reach(p, path, path[0], path[|path| - 1]) {}
    if x, path :| x in p.defs && Reach(p, path, v, x) && s in InferSites(p, x) {
      assert IsPath(InferGraph(p), {}, path);
    }
  }
}
