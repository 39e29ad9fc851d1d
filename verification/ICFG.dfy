/** The interprocedural control flow graph: which nodes and edges the program
    calls for. */
module ICFG {
  import opened Options

  /** What matters about an instruction. `Intrinsic` is a call to one of the
      intrinsics that the graph leaves out. */
  datatype Kind =
    | Plain
    | Intrinsic
    | Call(callee: Option<nat>)
    | Return
    | Branch
    | CondBranch
    | Switch(width: nat, cases: seq<(int, nat)>)

  datatype Block = Block(insts: seq<Kind>, succs: seq<nat>)

  /** A function without blocks is a declaration; `ext` functions are not entered. */
  datatype Function = Function(blocks: seq<Block>, ext: bool)

  type Program = seq<Function>

  datatype Loc = Loc(fun: nat, block: nat, idx: nat)

  predicate Defined(p: Program, g: nat) {
    g < |p| && p[g].blocks != []
  }

  predicate IsBlock(p: Program, g: nat, b: nat) {
    g < |p| && b < |p[g].blocks|
  }

  predicate IsLoc(p: Program, u: Loc) {
    IsBlock(p, u.fun, u.block) && u.idx < |p[u.fun].blocks[u.block].insts|
  }

  function BlockOf(p: Program, u: Loc): Block
    requires IsLoc(p, u)
  {
    p[u.fun].blocks[u.block]
  }

  function At(p: Program, u: Loc): Kind
    requires IsLoc(p, u)
  {
    BlockOf(p, u).insts[u.idx]
  }

  predicate IsTerminator(p: Program, u: Loc)
    requires IsLoc(p, u)
  {
    u.idx + 1 == |BlockOf(p, u).insts|
  }

  ghost predicate Formed(p: Program) {
    forall g: nat, b: nat | IsBlock(p, g, b) :: FormedBlock(p, g, p[g].blocks[b])
  }

  /** A block ends with its terminator; an intrinsic that ends a block is invoked, and
      has a normal and an unwind successor. */
  ghost predicate FormedBlock(p: Program, g: nat, blk: Block)
    requires g < |p|
  {
    && blk.insts != []
    && (forall s | s in blk.succs :: s < |p[g].blocks|)
    && (forall k | 0 <= k < |blk.insts| - 1 :: blk.insts[k].Plain? || blk.insts[k].Intrinsic? || blk.insts[k].Call?)
    && (forall k | 0 <= k < |blk.insts| ::
        blk.insts[k].Call? && blk.insts[k].callee.Some? ==> WellFormedCallee(p, blk.insts[k].callee.value))
    && var last := blk.insts[|blk.insts| - 1];
      && (last.Return? ==> blk.succs == [])
      && (last.Intrinsic? ==> |blk.succs| == 2)
      && (last.Branch? ==> |blk.succs| == 1)
      && (last.CondBranch? ==> |blk.succs| == 2)
      && (last.Switch? ==> |blk.succs| == |last.cases| + 1 && forall k | 0 <= k < |last.cases| ::
          blk.succs[k + 1] == last.cases[k].1)
  }

  predicate WellFormedCallee(p: Program, g: nat) {
    g < |p| && (p[g].ext || p[g].blocks != [])
  }

  ghost function AllLocs(p: Program): (r: set<Loc>)
    ensures forall u :: u in r <==> IsLoc(p, u)
  {
    set g: nat, b: nat, k: nat | g < |p| && b < |p[g].blocks| && k < |p[g].blocks[b].insts| :: Loc(g, b, k)
  }

  // ---------- following control through intrinsics ----------

  /** Control may pass from `u` to `v` in one step. */
  ghost predicate Step(p: Program, u: Loc, v: Loc) {
    && IsLoc(p, u) && IsLoc(p, v) && u.fun == v.fun
    && if IsTerminator(p, u) then v.block in BlockOf(p, u).succs && v.idx == 0
       else v.block == u.block && v.idx == u.idx + 1
  }

  /** `path` goes from `u` to `v`, and everything between them is an intrinsic. */
  ghost predicate ThroughIntrinsics(p: Program, u: Loc, v: Loc, path: seq<Loc>) {
    && |path| >= 2 && path[0] == u && path[|path| - 1] == v
    && (forall k | 0 <= k < |path| - 1 :: Step(p, path[k], path[k + 1]))
    && (forall k | 0 < k < |path| - 1 :: IsLoc(p, path[k]) && At(p, path[k]).Intrinsic?)
    && IsLoc(p, v) && !At(p, v).Intrinsic?
  }

  /** `v` is an instruction that follows `u`, skipping intrinsics. */
  ghost predicate Follows(p: Program, u: Loc, v: Loc) {
    exists path :: ThroughIntrinsics(p, u, v, path)
  }

  lemma BlockStart(p: Program, g: nat, b: nat)
    requires Formed(p) && IsBlock(p, g, b)
    ensures IsLoc(p, Loc(g, b, 0)) && FormedBlock(p, g, p[g].blocks[b])
  {
  }

  // ---------- nodes and edges ----------

  datatype Node = FunEntry(fun: nat) | FunExit(fun: nat) | Intra(inst: Loc) | CallNode(inst: Loc) | RetNode(inst: Loc)

  datatype EdgeKind = IntraCF | CallCF | RetCF

  datatype Edge = Edge(kind: EdgeKind, src: Node, dst: Node)

  function NodeOf(p: Program, u: Loc): Node
    requires IsLoc(p, u)
  {
    if At(p, u).Call? then CallNode(u) else Intra(u)
  }

  /** Control leaves a call at its return node. */
  function SourceOf(p: Program, u: Loc): Node
    requires IsLoc(p, u)
  {
    if At(p, u).Call? then RetNode(u) else Intra(u)
  }

  /** The function that a call enters, if it is known and has a body. */
  function Entered(p: Program, u: Loc): Option<nat>
    requires IsLoc(p, u)
  {
    var k := At(p, u);
    if k.Call? && k.callee.Some? && k.callee.value < |p| && !p[k.callee.value].ext then k.callee else None
  }

  /** The case value that leads to block `b`: none for the default block, and none
      if several cases lead there. */
  function FindCaseDest(cases: seq<(int, nat)>, b: nat, found: Option<int>): Option<int>
    decreases |cases|
  {
    if cases == [] then found
    else if cases[0].1 != b then FindCaseDest(cases[1..], b, found)
    else if found.Some? then None
    else FindCaseDest(cases[1..], b, Some(cases[0].0))
  }

  /** The condition recorded on the edge from `u` to `v`, the `k`-th instruction after
      it. A case value of more than 64 bits is not recorded. */
  function Condition(p: Program, u: Loc, v: Loc, k: nat): Option<int>
    requires Formed(p) && IsLoc(p, u)
  {
    match At(p, u)
    case CondBranch => Some(1 - k)
    case Switch(width, cases) =>
      BlockStart(p, u.fun, u.block);
      var found :=
        if BlockOf(p, u).succs != [] && v.block == BlockOf(p, u).succs[0] then None
        else FindCaseDest(cases, v.block, None);
      if found.Some? && width <= 64 then found else Some(-1)
    case _ => None
  }
}
