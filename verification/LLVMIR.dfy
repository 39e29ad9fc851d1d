/** SSA function bodies as far as breaking constant expressions needs them:
    values, instructions placed in blocks, and what a run along a control path
    computes. */
module LLVMIR {

  type Id = nat
  type BlockId = nat

  datatype Opcode = GetElementPtr | BinaryOp(k: nat) | UnaryOp(k: nat) | OtherOp(k: nat)

  /** An operand: a plain constant, global, argument or label; the result of an
      instruction; a constant aggregate; or a constant expression. */
  datatype Value =
    | Leaf(name: nat)
    | Inst(id: Id)
    | Aggregate(elems: seq<Value>)
    | ConstExpr(op: Opcode, args: seq<Value>)

  datatype Incoming = Incoming(block: BlockId, value: Value)

  /** `Pure` instructions compute what a constant expression with the same
      opcode does; `Native` ones may also depend on and change the world. */
  datatype Code = Pure(op: Opcode) | Native(k: nat)

  datatype Instr =
    | Phi(incoming: seq<Incoming>)
    | Op(code: Code, operands: seq<Value>)

  datatype Body = Body(layout: seq<seq<Id>>, insts: map<Id, Instr>)

  function Operands(i: Instr): (r: seq<Value>) {
    match i
    case Phi(inc) => seq(|inc|, k requires 0 <= k < |inc| => inc[k].value)
    case Op(_, xs) => xs
  }

  // ---------- well-formed bodies ----------

  /** No instruction result below a constant. */
  predicate IsConstant(v: Value) {
    match v
    case Leaf(_) => true
    case Inst(_) => false
    case Aggregate(es) => forall k | 0 <= k < |es| :: IsConstant(es[k])
    case ConstExpr(_, xs) => forall k | 0 <= k < |xs| :: IsConstant(xs[k])
  }

  predicate WellFormedOperand(f: Body, v: Value) {
    if v.Inst? then v.id in f.insts else IsConstant(v)
  }

  /** A phi that lists a block more than once gives it the same value each time. */
  predicate OneValuePerBlock(inc: seq<Incoming>) {
    forall j, k | 0 <= j < |inc| && 0 <= k < |inc| && inc[j].block == inc[k].block :: inc[j].value == inc[k].value
  }

  predicate WellFormedIncoming(f: Body, i: Incoming) {
    && i.block < |f.layout|
    && f.layout[i.block] != []
    && var last := f.layout[i.block][|f.layout[i.block]| - 1];
      last in f.insts && f.insts[last].Op?
  }

  ghost predicate Placed(f: Body, id: Id) {
    exists b :: 0 <= b < |f.layout| && id in f.layout[b]
  }

  ghost predicate WellFormed(f: Body) {
    && (forall b, id | 0 <= b < |f.layout| && id in f.layout[b] :: id in f.insts)
    && (forall id | id in f.insts :: Placed(f, id) && WellFormedInstr(f, f.insts[id]))
  }

  ghost predicate WellFormedInstr(f: Body, i: Instr) {
    && (forall v | v in Operands(i) :: WellFormedOperand(f, v))
    && (i.Phi? ==> OneValuePerBlock(i.incoming) && forall x | x in i.incoming :: WellFormedIncoming(f, x))
  }

  // ---------- meaning ----------

  /** What leaves, pure opcodes and native instructions mean; nothing is assumed
      about any of them. */
  datatype Sem<!V, !W> = Sem(
    leaf: nat -> V,
    aggregate: seq<V> -> V,
    pure: (Opcode, seq<V>) -> V,
    native: (nat, seq<V>, W) -> (V, W),
    undef: V)

  datatype State<!V, !W> = State(env: map<Id, V>, world: W)

  ghost function Lookup<V, W>(sem: Sem<V, W>, env: map<Id, V>, id: Id): V {
    if id in env then env[id] else sem.undef
  }

  ghost function Eval<V, W>(sem: Sem<V, W>, env: map<Id, V>, v: Value): V {
    match v
    case Leaf(n) => sem.leaf(n)
    case Inst(id) => Lookup(sem, env, id)
    case Aggregate(es) => sem.aggregate(EvalAll(sem, env, es))
    case ConstExpr(op, xs) => sem.pure(op, EvalAll(sem, env, xs))
  }

  ghost function EvalAll<V, W>(sem: Sem<V, W>, env: map<Id, V>, vs: seq<Value>): (r: seq<V>)
    ensures |r| == |vs|
  {
    seq(|vs|, k requires 0 <= k < |vs| => Eval(sem, env, vs[k]))
  }

  /** One instruction of a block's body; phis have run before. */
  ghost function StepOp<V, W>(sem: Sem<V, W>, f: Body, id: Id, st: State<V, W>): State<V, W>
    requires id in f.insts
  {
    match f.insts[id]
    case Phi(_) => st
    case Op(Pure(op), xs) => st.(env := st.env[id := sem.pure(op, EvalAll(sem, st.env, xs))])
    case Op(Native(k), xs) =>
      var r := sem.native(k, EvalAll(sem, st.env, xs), st.world);
      State(st.env[id := r.0], r.1)
  }

  ghost function RunOps<V, W>(sem: Sem<V, W>, f: Body, ids: seq<Id>, st: State<V, W>): State<V, W>
    requires forall id | id in ids :: id in f.insts
  {
    if ids == [] then st else RunOps(sem, f, ids[1..], StepOp(sem, f, ids[0], st))
  }

  /** The value a phi takes when control comes from `pred`: that of an incoming
      entry for `pred`, the one `pick` says if there are several. */
  ghost function PhiValue<V, W>(sem: Sem<V, W>, pick: (Id, BlockId) -> nat, id: Id, inc: seq<Incoming>,
                                pred: BlockId, env: map<Id, V>): V {
    var k := pick(id, pred);
    if k < |inc| && inc[k].block == pred then Eval(sem, env, inc[k].value) else sem.undef
  }

  ghost function StepPhi<V, W>(sem: Sem<V, W>, f: Body, pick: (Id, BlockId) -> nat, id: Id, pred: BlockId,
                               env0: map<Id, V>, env: map<Id, V>): map<Id, V>
    requires id in f.insts
  {
    match f.insts[id]
    case Phi(inc) => env[id := PhiValue(sem, pick, id, inc, pred, env0)]
    case Op(_, _) => env
  }

  /** All phis of a block read the values `env0` at the end of the predecessor. */
  ghost function RunPhis<V, W>(sem: Sem<V, W>, f: Body, pick: (Id, BlockId) -> nat, ids: seq<Id>, pred: BlockId,
                               env0: map<Id, V>, env: map<Id, V>): map<Id, V>
    requires forall id | id in ids :: id in f.insts
  {
    if ids == [] then env
    else RunPhis(sem, f, pick, ids[1..], pred, env0, StepPhi(sem, f, pick, ids[0], pred, env0, env))
  }

  ghost function RunBlock<V, W>(sem: Sem<V, W>, f: Body, pick: (Id, BlockId) -> nat, b: BlockId, pred: BlockId,
                                st: State<V, W>): State<V, W>
    requires WellFormed(f) && b < |f.layout|
  {
    var env := RunPhis(sem, f, pick, f.layout[b], pred, st.env, st.env);
    RunOps(sem, f, f.layout[b], st.(env := env))
  }

  ghost predicate IsPath(f: Body, path: seq<BlockId>) {
    forall k | 0 <= k < |path| :: path[k] < |f.layout|
  }

  ghost function RunPath<V, W>(sem: Sem<V, W>, f: Body, pick: (Id, BlockId) -> nat, path: seq<BlockId>,
                               pred: BlockId, st: State<V, W>): State<V, W>
    requires WellFormed(f) && IsPath(f, path)
  {
    if path == [] then st
    else RunPath(sem, f, pick, path[1..], path[0], RunBlock(sem, f, pick, path[0], pred, st))
  }

  /** A run from a function's entry; the entry block has no predecessor. */
  ghost function Run<V, W>(sem: Sem<V, W>, f: Body, pick: (Id, BlockId) -> nat, path: seq<BlockId>,
                           st: State<V, W>): State<V, W>
    requires WellFormed(f) && IsPath(f, path)
  {
    if path == [] then st
    else RunPath(sem, f, pick, path[1..], path[0], RunOps(sem, f, f.layout[path[0]], st))
  }

  lemma {:induction false} ConstantsIgnoreEnv<V, W>(sem: Sem<V, W>, env: map<Id, V>, env': map<Id, V>, v: Value)
    requires IsConstant(v)
    ensures Eval(sem, env, v) == Eval(sem, env', v)
  {
    match v
    case Leaf(_) =>
    case Aggregate(es) => AllConstantsIgnoreEnv(sem, env, env', es);
    case ConstExpr(_, xs) => AllConstantsIgnoreEnv(sem, env, env', xs);
  }

  lemma {:induction false} AllConstantsIgnoreEnv<V, W>(sem: Sem<V, W>, env: map<Id, V>, env': map<Id, V>,
                                                       vs: seq<Value>)
    requires forall k | 0 <= k < |vs| :: IsConstant(vs[k])
    ensures EvalAll(sem, env, vs) == EvalAll(sem, env', vs)
  {
    forall k | 0 <= k < |vs| ensures Eval(sem, env, vs[k]) == Eval(sem, env', vs[k]) {
      ConstantsIgnoreEnv(sem, env, env', vs[k]);
    }
  }
}
