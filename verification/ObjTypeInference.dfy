/** The two type-inference queries over LLVM values: backwards to allocation
    sites, and forwards to the instructions an object's type is read from. */
module ObjTypeInference {
  import opened SearchOrder
  import opened TwoPhase
  import opened Options

  type ValueId = nat
  type FunId = nat
  type Type = nat

  /** How a value is defined. `Call` names its callee if the call is direct. */
  datatype Def =
    | Alloca
    | Global
    | BitCast(op: ValueId)
    | Phi(ops: seq<ValueId>)
    | Load(ptr: ValueId)
    | Store(storePtr: ValueId, val: ValueId)
    | Gep(base: ValueId)
    | Argument(parent: FunId, argNo: nat)
    | Call(callee: Option<FunId>, args: seq<ValueId>)
    | Return(fun: FunId)
    | Other

  datatype Fun = Fun(
    self: ValueId,                 // the function as a value
    isVarArg: bool,
    isDeclaration: bool,
    params: seq<ValueId>,
    returned: ValueId,             // returned at the unique exit block
    varArgLoads: seq<ValueId>)     // loads from a pointer named "vaarg.addr"

  datatype Program = Program(
    defs: map<ValueId, Def>,
    users: map<ValueId, seq<ValueId>>,
    objects: set<ValueId>,         // stack, heap and global objects, functions
    funs: map<FunId, Fun>)
  {
    function Def(v: ValueId): Def {
      if v in defs then defs[v] else Other
    }

    function Users(v: ValueId): seq<ValueId> {
      if v in users then users[v] else []
    }

    function FunUsers(f: FunId): seq<ValueId> {
      if f in funs then Users(funs[f].self) else []
    }
  }

  /** The values `f` gives for the elements of `xs`, in order. */
  function FlatMap(xs: seq<ValueId>, f: ValueId -> seq<ValueId>): seq<ValueId> {
    if xs == [] then [] else f(xs[0]) + FlatMap(xs[1..], f)
  }

  function Filter(xs: seq<ValueId>, keep: ValueId -> bool): seq<ValueId> {
    FlatMap(xs, x => if keep(x) then [x] else [])
  }

  // ---------- backwards ----------

  /** The operand a call passes for parameter `a`; all arguments of a variadic
      function stand for the first. */
  function ActualFor(p: Program, parent: FunId, argNo: nat, use: ValueId): seq<ValueId> {
    match p.Def(use)
    case Call(Some(f), args) =>
      var pos := if parent in p.funs && p.funs[parent].isVarArg then 0 else argNo;
      if f == parent && pos < |args| then [args[pos]] else []
    case _ => []
  }

  /** Where the value of `v` may come from. */
  function Backwards(p: Program, v: ValueId): seq<ValueId> {
    if v in p.objects then [] else
    match p.Def(v)
    case BitCast(op) => [op]
    case Phi(ops) => ops
    case Load(ptr) =>
      FlatMap(p.Users(ptr), use =>
        match p.Def(use)
        case Store(q, val) => if q == ptr then [val] else []
        case _ => [])
    case Argument(parent, argNo) => FlatMap(p.FunUsers(parent), use => ActualFor(p, parent, argNo, use))
    case Call(Some(f), _) => if f in p.funs && !p.funs[f].isDeclaration then [p.funs[f].returned] else []
    case _ => []
  }

  // ---------- forwards ----------

  function IsLoad(p: Program): ValueId -> bool { (v: ValueId) => p.Def(v).Load? }

  function IsGep(p: Program): ValueId -> bool { (v: ValueId) => p.Def(v).Gep? }

  /** The loads through the GEPs of `v`. */
  function LoadsOfGeps(p: Program, v: ValueId): seq<ValueId> {
    FlatMap(Filter(p.Users(v), IsGep(p)), gep => Filter(p.Users(gep), IsLoad(p)))
  }

  /** What is loaded back after `v` was stored through `ptr`. */
  function LoadedBack(p: Program, ptr: ValueId): seq<ValueId> {
    Filter(p.Users(ptr), IsLoad(p)) +
    match p.Def(ptr)
    case Gep(base) =>
      (match p.Def(base)
       case Load(q) =>
         FlatMap(Filter(p.Users(q), (u: ValueId) => u != base && p.Def(u).Load?), u => LoadsOfGeps(p, u))
       case Alloca => LoadsOfGeps(p, base)
       case _ => [])
    case _ => []
  }

  function IndexOf(xs: seq<ValueId>, v: ValueId): (k: nat)
    requires v in xs
    ensures k < |xs| && xs[k] == v && v !in xs[..k]
  {
    if xs[0] == v then 0 else
      assert v in xs[1..];
      var k := IndexOf(xs[1..], v) + 1;
      assert xs[..k] == [xs[0]] + xs[1..][..k - 1];
      k
  }

  /** Where `v` goes when passed to a call: the matching parameter, or the loads
      of a variadic function's argument area. */
  function IntoCallee(p: Program, v: ValueId, callee: Option<FunId>, args: seq<ValueId>): seq<ValueId> {
    match callee
    case None => []
    case Some(f) =>
      if f !in p.funs || v == p.funs[f].self || v !in args then []
      else if p.funs[f].isVarArg then p.funs[f].varArgLoads
      else if p.funs[f].isDeclaration then []
      else
        var pos := IndexOf(args, v);
        if pos < |p.funs[f].params| then [p.funs[f].params[pos]] else []
  }

  /** Where the value of `v` may go through its user `u`. */
  function ForwardsVia(p: Program, v: ValueId, u: ValueId): seq<ValueId> {
    match p.Def(u)
    case Store(ptr, _) => if ptr == v then [] else LoadedBack(p, ptr)
    case BitCast(_) => [u]
    case Phi(_) => [u]
    case Return(f) =>
      Filter(p.FunUsers(f), (site: ValueId) =>
        match p.Def(site)
        case Call(Some(h), _) => h == f
        case _ => false)
    case Call(callee, args) => IntoCallee(p, v, callee, args)
    case _ => []
  }

  function Forwards(p: Program, v: ValueId): seq<ValueId> {
    FlatMap(p.Users(v), Via(p, v))
  }

  function Via(p: Program, v: ValueId): ValueId -> seq<ValueId> { (u: ValueId) => ForwardsVia(p, v, u) }

  /** The instructions that show the type of the object `v` points to. */
  function InferSites(p: Program, v: ValueId): set<ValueId> {
    (if p.Def(v).Gep? then {v} else {}) +
    set u | u in p.Users(v) &&
      (match p.Def(u)
       case Load(_) => true
       case Store(ptr, _) => ptr == v
       case Gep(base) => base == v
       case _ => false) :: u
  }

  ghost predicate WellFormed(p: Program) {
    forall v | v in p.defs ::
      && (forall k | 0 <= k < |Backwards(p, v)| :: Backwards(p, v)[k] in p.defs)
      && (forall k | 0 <= k < |Forwards(p, v)| :: Forwards(p, v)[k] in p.defs)
  }

  function AllocGraph(p: Program): Graph<ValueId> {
    Graph(map v | v in p.defs :: Backwards(p, v), map v | v in p.defs :: if v in p.objects then {v} else {})
  }

  function InferGraph(p: Program): Graph<ValueId> {
    Graph(map v | v in p.defs :: Forwards(p, v), map v | v in p.defs :: InferSites(p, v))
  }

  lemma GraphsWellFormed(p: Program)
    requires WellFormed(p)
    ensures AllocGraph(p).WellFormed() && InferGraph(p).WellFormed()
  {
  }

  /** The allocation sites from which the value of `v` may come. */
  ghost function AllocSites(p: Program, v: ValueId): set<ValueId>
    requires WellFormed(p)
  {
    GraphsWellFormed(p);
    Sites(AllocGraph(p), v)
  }

  /** The infer sites the object at `v` may flow to. */
  ghost function ReachedInferSites(p: Program, v: ValueId): set<ValueId>
    requires WellFormed(p)
  {
    GraphsWellFormed(p);
    Sites(InferGraph(p), v)
  }

  lemma ReachedSitesAreValues(p: Program, v: ValueId)
    requires WellFormed(p)
    ensures ReachedInferSites(p, v) <= p.defs.Keys
  {
    GraphsWellFormed(p);
    forall w, s | w in p.defs && s in InferSites(p, w) ensures s in p.defs {
    }
  }

  // ---------- choosing a type ----------

  /** How the descending map orders its unsigned 32-bit keys: as signed ones. */
  function AsInt32(n: nat): int {
    if n % 0x1_0000_0000 < 0x8000_0000 then n % 0x1_0000_0000 else n % 0x1_0000_0000 - 0x1_0000_0000
  }

  /** `t` is chosen among `types`: largest in that order, then least address. */
  ghost predicate Selected(types: set<Type>, fields: Type -> nat, t: Type) {
    && t in types
    && forall s | s in types ::
         AsInt32(fields(s)) < AsInt32(fields(t)) || (AsInt32(fields(s)) == AsInt32(fields(t)) && t <= s)
  }

  method SelectLargestSizedType(objTys: set<Type>, fields: Type -> nat) returns (r: Option<Type>)
    ensures objTys == {} ==> r == None
    ensures objTys != {} ==> r.Some? && Selected(objTys, fields, r.value)
  {
    if objTys == {} { return None; }
    var best :| best in objTys;
    var rest := objTys - {best};
    while rest != {}
      invariant rest <= objTys && best in objTys - rest
      invariant Selected(objTys - rest, fields, best)
      decreases rest
    {
      var ty :| ty in rest;
      rest := rest - {ty};
      if AsInt32(fields(ty)) > AsInt32(fields(best)) || (AsInt32(fields(ty)) == AsInt32(fields(best)) && ty < best) {
        best := ty;
      }
    }
    assert objTys - rest == objTys;
    r := Some(best);
  }

  /** The chosen type has the most fields exactly when no candidate is too large
      for the signed order while another is not. */
  lemma SelectedIsLargestIff(types: set<Type>, fields: Type -> nat, t: Type)
    requires Selected(types, fields, t) && forall s | s in types :: fields(s) < 0x1_0000_0000
    ensures (forall s | s in types :: fields(s) <= fields(t)) <==>
            ((forall s | s in types :: fields(s) < 0x8000_0000) || (forall s | s in types :: fields(s) >= 0x8000_0000))
  {
  }

  /** Of types with as many fields the one at the least address is chosen. */
  lemma SelectedIsFirst(types: set<Type>, fields: Type -> nat, t: Type, s: Type)
    requires Selected(types, fields, t) && s in types && fields(s) == fields(t)
    ensures t <= s
  {
  }

  /** With 2^31 fields a type counts as the smallest and loses to one field. */
  lemma HugeTypeLoses()
    ensures Selected({0, 1}, t => if t == 0 then 0x8000_0000 else 1, 1)
  {
  }

  // ---------- the queries ----------

  class ObjTypeInference {
    const p: Program
    const typeOf: map<ValueId, Type>   // type shown by an infer site, or of a stack or global object
    const fields: Type -> nat          // number of fields of a type, as an unsigned 32-bit number
    const defaults: map<ValueId, Type>
    const valueToAllocs: CachedSearch<ValueId>
    const valueToInferSites: CachedSearch<ValueId>

    constructor (program: Program, typeOf: map<ValueId, Type>, fields: Type -> nat, defaults: map<ValueId, Type>)
      requires WellFormed(program) && defaults.Keys == program.defs.Keys && program.defs.Keys <= typeOf.Keys
      ensures Valid() && p == program && fresh(valueToAllocs) && fresh(valueToInferSites)
      ensures valueToAllocs.cache == map[] && valueToInferSites.cache == map[]
    {
      GraphsWellFormed(program);
      p := program;
      this.typeOf := typeOf;
      this.fields := fields;
      this.defaults := defaults;
      valueToAllocs := new CachedSearch(AllocGraph(program));
      valueToInferSites := new CachedSearch(InferGraph(program));
    }

    /** Both caches only ever hold reachable sites. */
    ghost predicate Valid()
      reads valueToAllocs, valueToInferSites
    {
      && WellFormed(p) && defaults.Keys == p.defs.Keys && p.defs.Keys <= typeOf.Keys
      && valueToAllocs != valueToInferSites
      && valueToAllocs.Valid() && valueToAllocs.g == AllocGraph(p)
      && valueToInferSites.Valid() && valueToInferSites.g == InferGraph(p)
      && SoundCache(AllocGraph(p), valueToAllocs.cache)
      && SoundCache(InferGraph(p), valueToInferSites.cache)
    }

    /** All allocation sites of `v`, as far as the caches allow: never a wrong
        one, and none missing for a first query or while the caches are exact. */
    method BwfindAllocOfVar(v: ValueId) returns (r: set<ValueId>)
      requires Valid() && v in p.defs
      modifies valueToAllocs
      ensures Valid() && r <= AllocSites(p, v)
      ensures v !in old(valueToAllocs.cache) ==> r == Collected(AllocGraph(p), old(valueToAllocs.cache), v)
      ensures ExactCache(AllocGraph(p), old(valueToAllocs.cache)) ==> r == AllocSites(p, v)
      ensures StillExact(AllocGraph(p), old(valueToAllocs.cache), v, valueToAllocs.cache)
    {
      hide Orderly, ExactCache, SoundCache, Collected, ClosedCache;
      ghost var before := valueToAllocs.cache;
      r := valueToAllocs.Find(v);
      FindKeepsSound(AllocGraph(p), before, valueToAllocs.cache);
      FindKeepsExact(AllocGraph(p), before, v, valueToAllocs.cache);
      if ExactCache(AllocGraph(p), before) {
        if v in before {
          CachedIsExact(AllocGraph(p), before, v);
        } else {
          CollectedExact(AllocGraph(p), before, v);
        }
      }
    }

    function TypesOf(sites: set<ValueId>): set<Type> {
      set s | s in sites && s in typeOf :: typeOf[s]
    }

    /** The infer sites of `v`, found and cached like the allocation sites. */
    method FindInferSites(v: ValueId) returns (r: set<ValueId>)
      requires Valid() && v in p.defs
      modifies valueToInferSites
      ensures Valid() && r <= ReachedInferSites(p, v)
      ensures v !in old(valueToInferSites.cache) ==> r == Collected(InferGraph(p), old(valueToInferSites.cache), v)
      ensures ExactCache(InferGraph(p), old(valueToInferSites.cache)) ==> r == ReachedInferSites(p, v)
      ensures StillExact(InferGraph(p), old(valueToInferSites.cache), v, valueToInferSites.cache)
    {
      hide Orderly, ExactCache, SoundCache, Collected, ClosedCache;
      ghost var before := valueToInferSites.cache;
      r := valueToInferSites.Find(v);
      FindKeepsSound(InferGraph(p), before, valueToInferSites.cache);
      FindKeepsExact(InferGraph(p), before, v, valueToInferSites.cache);
      if ExactCache(InferGraph(p), before) {
        if v in before {
          CachedIsExact(InferGraph(p), before, v);
        } else {
          CollectedExact(InferGraph(p), before, v);
        }
      }
    }

    /** `t` is the largest type among the infer sites in `sites`, in the order the
        map of sizes uses, or the default type of `v` if there is none. */
    ghost predicate LargestAmong(sites: set<ValueId>, v: ValueId, t: Type) {
      if sites == {} then v in defaults && t == defaults[v] else Selected(TypesOf(sites), fields, t)
    }

    method ChooseType(infersites: set<ValueId>, v: ValueId) returns (r: Type)
      requires v in defaults && infersites <= typeOf.Keys
      ensures LargestAmong(infersites, v, r)
    {
      hide Selected;
      if s :| s in infersites { assert typeOf[s] in TypesOf(infersites); }
      var chosen := SelectLargestSizedType(TypesOf(infersites), fields);
      r := match chosen case None => defaults[v] case Some(t) => t;
    }

    /** `t` is shown by one of the sites, or the default type of `v`. */
    ghost predicate ShownOrDefault(sites: set<ValueId>, v: ValueId, t: Type) {
      (v in defaults && t == defaults[v]) || exists s :: s in sites && s in typeOf && typeOf[s] == t
    }

    lemma ChosenIsShown(sites: set<ValueId>, reached: set<ValueId>, v: ValueId, t: Type)
      requires LargestAmong(sites, v, t) && sites <= reached
      ensures ShownOrDefault(reached, v, t)
    {
    }

    /** If no site's type is too large for the signed order, none has more fields. */
    lemma ChosenIsLargest(sites: set<ValueId>, v: ValueId, t: Type)
      requires LargestAmong(sites, v, t) && sites <= typeOf.Keys
      requires forall s | s in sites :: fields(typeOf[s]) < 0x8000_0000
      ensures forall s | s in sites :: fields(typeOf[s]) <= fields(t)
    {
      if sites != {} {
        SelectedIsLargestIff(TypesOf(sites), fields, t);
        forall s | s in sites ensures fields(typeOf[s]) <= fields(t) { assert typeOf[s] in TypesOf(sites); }
      }
    }

    /** The largest type of all that the reached infer sites show, if none of them is
        too large for the signed order. */
    ghost predicate LargestReached(reached: set<ValueId>, v: ValueId, t: Type) {
      && LargestAmong(reached, v, t)
      && (reached <= typeOf.Keys && (forall s | s in reached :: fields(typeOf[s]) < 0x8000_0000) ==>
            forall s | s in reached :: fields(typeOf[s]) <= fields(t))
    }

    lemma ChosenIsLargestReached(sites: set<ValueId>, reached: set<ValueId>, v: ValueId, t: Type)
      requires LargestAmong(sites, v, t) && sites <= reached
      ensures ShownOrDefault(reached, v, t)
      ensures sites == reached ==> LargestReached(reached, v, t)
    {
      hide LargestAmong, ShownOrDefault;
      ChosenIsShown(sites, reached, v, t);
      if sites == reached <= typeOf.Keys && forall s | s in reached :: fields(typeOf[s]) < 0x8000_0000 {
        ChosenIsLargest(reached, v, t);
      }
    }

    lemma HasDefault(v: ValueId)
      requires Valid() && v in p.defs
      ensures WellFormed(p) && InferGraph(p).WellFormed() && v in defaults && p.defs.Keys <= typeOf.Keys
    {
    }

    /** The type of a heap object, from what its infer sites show. */
    method InferHeapType(v: ValueId) returns (r: Type)
      requires Valid() && v in p.defs
      modifies valueToInferSites
      ensures Valid() && ReachedInferSites(p, v) <= typeOf.Keys
      ensures ShownOrDefault(ReachedInferSites(p, v), v, r)
      ensures ExactCache(InferGraph(p), old(valueToInferSites.cache)) ==> LargestReached(ReachedInferSites(p, v), v, r)
      ensures StillExact(InferGraph(p), old(valueToInferSites.cache), v, valueToInferSites.cache)
    {
      hide LargestAmong, LargestReached, ReachedInferSites, Selected, ExactCache, StillExact, ShownOrDefault, Valid,
          Collected, WellFormed, InferGraph;
      HasDefault(v);
      ghost var reached := ReachedInferSites(p, v);
      var infersites := FindInferSites(v);
      ReachedSitesAreValues(p, v);
      r := ChooseType(infersites, v);
      ChosenIsLargestReached(infersites, reached, v, r);
    }

    /** The type of the object at `v`: its own for a stack or global object, else
        the largest type among its infer sites, or the default if there is none. */
    method FwInferObjType(v: ValueId) returns (r: Type)
      requires Valid() && v in p.defs
      modifies valueToInferSites
      ensures Valid() && ReachedInferSites(p, v) <= typeOf.Keys
      ensures p.Def(v).Alloca? || p.Def(v).Global? ==> r == typeOf[v]
      ensures !p.Def(v).Alloca? && !p.Def(v).Global? ==> ShownOrDefault(ReachedInferSites(p, v), v, r)
      ensures !p.Def(v).Alloca? && !p.Def(v).Global? && ExactCache(InferGraph(p), old(valueToInferSites.cache)) ==>
                LargestReached(ReachedInferSites(p, v), v, r)
      ensures StillExact(InferGraph(p), old(valueToInferSites.cache), v, valueToInferSites.cache)
    {
      hide LargestReached, ExactCache, ReachedInferSites, ShownOrDefault, Orderly;
      ReachedSitesAreValues(p, v);
      if p.Def(v).Alloca? || p.Def(v).Global? {
        r := typeOf[v];
      } else {
        r := InferHeapType(v);
      }
    }
  }

  /** Exact caches stay exact if the values that the query for `v` meets are orderly;
      and values that are orderly stay so, whatever is asked. */
  ghost predicate StillExact(g: Graph<ValueId>, before: Cache<ValueId>, v: ValueId, after: Cache<ValueId>)
    requires g.WellFormed()
  {
    && (ExactCache(g, before) && Orderly(g, before.Keys, Region(g, before.Keys, v)) ==> ExactCache(g, after))
    && forall w | Orderly(g, before.Keys, Region(g, before.Keys, w)) ::
         Orderly(g, after.Keys, Region(g, after.Keys, w))
  }

  lemma FindKeepsExact(g: Graph<ValueId>, before: Cache<ValueId>, v: ValueId, after: Cache<ValueId>)
    requires g.WellFormed() && v in g.succ && before.Keys <= after.Keys
    requires if v in before then after == before else RunsTo(g, before, v, after)
    ensures StillExact(g, before, v, after)
  {
    hide Orderly, ExactCache, RunsTo;
    if v !in before && ExactCache(g, before) && Orderly(g, before.Keys, Region(g, before.Keys, v)) {
      OrderlyKeepsExact(g, before, v, Region(g, before.Keys, v), after);
    }
    forall w | Orderly(g, before.Keys, Region(g, before.Keys, w))
      ensures Orderly(g, after.Keys, Region(g, after.Keys, w))
    {
      OrderlyLater(g, before.Keys, after.Keys, w);
    }
  }

  /** A query adds only sound entries to sound caches. */
  lemma FindKeepsSound(g: Graph<ValueId>, before: Cache<ValueId>, after: Cache<ValueId>)
    requires g.WellFormed() && SoundCache(g, before) && after.Keys <= g.succ.Keys
    requires forall n | n in before :: n in after && after[n] == before[n]
    requires forall n | n in after && n !in before :: after[n] <= Collected(g, before, n)
    ensures SoundCache(g, after)
  {
    forall n | n in after ensures after[n] <= Sites(g, n) {
      if n !in before { CollectedSound(g, before, n); }
    }
  }
}
