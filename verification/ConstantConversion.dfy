/** Turning one constant expression into an instruction, and why the function
    still computes the same along every control path. */
module ConstantConversion {
  import opened LLVMIR

  function InsertBefore(ids: seq<Id>, at: Id, newId: Id): (r: seq<Id>)
  {
    if ids == [] then []
    else (if ids[0] == at then [newId] else []) + [ids[0]] + InsertBefore(ids[1..], at, newId)
  }

  lemma {:induction false} InsertBeforeIds(ids: seq<Id>, at: Id, newId: Id)
    ensures forall id :: id in InsertBefore(ids, at, newId) <==> id in ids || (id == newId && at in ids)
    ensures ids != [] ==>
              var r := InsertBefore(ids, at, newId);
              r != [] && r[|r| - 1] == ids[|ids| - 1]
  {
    if ids != [] {
      InsertBeforeIds(ids[1..], at, newId);
    }
  }

  /** `v'` is `v`, or stands for the converted expression `ce`. */
  predicate Replaced(v: Value, v': Value, ce: Value, newId: Id) {
    v' == v || (v == ce && v' == Inst(newId))
  }

  /** `at` is the last instruction of block `b`. */
  predicate EndsWith(f: Body, b: BlockId, at: Id) {
    b < |f.layout| && f.layout[b] != [] && f.layout[b][|f.layout[b]| - 1] == at
  }

  /** Instruction `i` of `f` after the conversion: an operand of the instruction
      at the insertion point, or an incoming value from the block that it ends, may
      have been replaced. */
  ghost predicate InstrConverted(f: Body, id: Id, i: Instr, i': Instr, at: Id, ce: Value, newId: Id) {
    match i
    case Phi(inc) =>
      && i'.Phi? && |i'.incoming| == |inc|
      && forall k | 0 <= k < |inc| ::
           && i'.incoming[k].block == inc[k].block
           && Replaced(inc[k].value, i'.incoming[k].value, ce, newId)
           && (i'.incoming[k] != inc[k] ==> EndsWith(f, inc[k].block, at))
    case Op(code, xs) =>
      && i'.Op? && i'.code == code && |i'.operands| == |xs|
      && (forall k | 0 <= k < |xs| :: Replaced(xs[k], i'.operands[k], ce, newId))
      && (i' != i ==> id == at)
  }

  /** `v` is an operand of some instruction. */
  ghost predicate Uses(f: Body, v: Value) {
    exists id :: id in f.insts && v in Operands(f.insts[id])
  }

  /** `f'` is `f` with `ce` computed by the new instruction `newId` right before
      `at`, and used there. */
  ghost predicate Converted(f: Body, f': Body, at: Id, ce: Value, newId: Id) {
    && ce.ConstExpr? && IsConstant(ce) && Uses(f, ce)
    && newId !in f.insts && at in f.insts && f.insts[at].Op?
    && f'.insts.Keys == f.insts.Keys + {newId}
    && f'.insts[newId] == Op(Pure(ce.op), ce.args)
    && |f'.layout| == |f.layout|
    && (forall b | 0 <= b < |f.layout| :: f'.layout[b] == InsertBefore(f.layout[b], at, newId))
    && forall id | id in f.insts :: InstrConverted(f, id, f.insts[id], f'.insts[id], at, ce, newId)
  }

  /** The two environments differ at most in `newId`. */
  ghost predicate Agree<V, W>(st: State<V, W>, st': State<V, W>, newId: Id) {
    && st.world == st'.world
    && forall id | id != newId :: (id in st.env <==> id in st'.env) && (id in st.env ==> st.env[id] == st'.env[id])
  }

  ghost predicate Holds<V>(env: map<Id, V>, id: Id, v: V) {
    id in env && env[id] == v
  }

  lemma OperandAgrees<V, W>(sem: Sem<V, W>, f: Body, st: State<V, W>, st': State<V, W>, v: Value, v': Value,
                            ce: Value, newId: Id)
    requires WellFormedOperand(f, v) && newId !in f.insts && IsConstant(ce)
    requires Agree(st, st', newId) && Replaced(v, v', ce, newId)
    requires v' != v ==> Holds(st'.env, newId, Eval(sem, st'.env, ce))
    ensures Eval(sem, st.env, v) == Eval(sem, st'.env, v')
  {
    if v' == v {
      if !v.Inst? { ConstantsIgnoreEnv(sem, st.env, st'.env, v); }
    } else {
      ConstantsIgnoreEnv(sem, st.env, st'.env, ce);
    }
  }

  lemma OperandsAgree<V, W>(sem: Sem<V, W>, f: Body, st: State<V, W>, st': State<V, W>, xs: seq<Value>, xs': seq<Value>,
                            ce: Value, newId: Id)
    requires (forall v | v in xs :: WellFormedOperand(f, v)) && newId !in f.insts && IsConstant(ce)
    requires Agree(st, st', newId) && |xs| == |xs'|
    requires forall k | 0 <= k < |xs| :: Replaced(xs[k], xs'[k], ce, newId)
    requires xs' != xs ==> Holds(st'.env, newId, Eval(sem, st'.env, ce))
    ensures EvalAll(sem, st.env, xs) == EvalAll(sem, st'.env, xs')
  {
    forall k | 0 <= k < |xs| ensures Eval(sem, st.env, xs[k]) == Eval(sem, st'.env, xs'[k]) {
      OperandAgrees(sem, f, st, st', xs[k], xs'[k], ce, newId);
    }
  }

  lemma ConvertedAt(f: Body, f': Body, at: Id, ce: Value, newId: Id, id: Id)
    requires WellFormed(f) && Converted(f, f', at, ce, newId) && id in f.insts
    ensures newId !in f.insts && IsConstant(ce) && id in f'.insts
    ensures WellFormedInstr(f, f.insts[id]) && InstrConverted(f, id, f.insts[id], f'.insts[id], at, ce, newId)
  {
  }

  /** Executing one original instruction on both sides. */
  lemma StepAgrees<V, W>(sem: Sem<V, W>, f: Body, f': Body, at: Id, ce: Value, newId: Id, id: Id,
                         st: State<V, W>, st': State<V, W>)
    requires WellFormed(f) && Converted(f, f', at, ce, newId) && id in f.insts
    requires Agree(st, st', newId)
    requires id == at ==> Holds(st'.env, newId, Eval(sem, st'.env, ce))
    ensures Agree(StepOp(sem, f, id, st), StepOp(sem, f', id, st'), newId)
    ensures newId in StepOp(sem, f', id, st').env <==> newId in st'.env
    ensures newId in st'.env ==> StepOp(sem, f', id, st').env[newId] == st'.env[newId]
  {
    hide Converted, WellFormed, Eval, EvalAll;
    ConvertedAt(f, f', at, ce, newId, id);
    var i, i' := f.insts[id], f'.insts[id];
    if i.Op? {
      OperandsAgree(sem, f, st, st', i.operands, i'.operands, ce, newId);
    }
  }

  /** The new instruction computes the value of `ce` and nothing else. */
  lemma FreshStep<V, W>(sem: Sem<V, W>, f: Body, f': Body, at: Id, ce: Value, newId: Id, st: State<V, W>,
                        st': State<V, W>)
    requires Converted(f, f', at, ce, newId) && Agree(st, st', newId)
    ensures var t := StepOp(sem, f', newId, st');
      Agree(st, t, newId) && Holds(t.env, newId, Eval(sem, t.env, ce))
  {
    ConstantsIgnoreEnv(sem, st'.env, StepOp(sem, f', newId, st').env, ce);
  }

  lemma {:induction false} BodyAgrees<V, W>(sem: Sem<V, W>, f: Body, f': Body, at: Id, ce: Value, newId: Id,
                                            ids: seq<Id>,
                                            st: State<V, W>, st': State<V, W>)
    requires WellFormed(f) && Converted(f, f', at, ce, newId)
    requires (forall id | id in ids :: id in f.insts) && Agree(st, st', newId)
    ensures forall id | id in InsertBefore(ids, at, newId) :: id in f'.insts
    ensures var t' := RunOps(sem, f', InsertBefore(ids, at, newId), st');
      && Agree(RunOps(sem, f, ids, st), t', newId)
      && (at in ids || Holds(st'.env, newId, Eval(sem, st'.env, ce)) ==> Holds(t'.env, newId, Eval(sem, t'.env, ce)))
    decreases |ids|
  {
    hide WellFormed, Converted, Eval, StepOp, Agree, InsertBefore, RunOps;
    InsertBeforeIds(ids, at, newId);
    ConvertedIds(f, f', at, ce, newId);
    if ids == [] {
      NoOps(sem, f, st, at, newId);
      NoOps(sem, f', st', at, newId);
    } else {
      var id, rest := ids[0], InsertBefore(ids[1..], at, newId);
      InsertBeforeIds(ids[1..], at, newId);
      InsertBeforeCons(ids, at, newId);
      assert ids == [id] + ids[1..];
      RunOpsCons(sem, f, id, ids[1..], st);
      var u' := st';
      if id == at {
        u' := StepOp(sem, f', newId, st');
        FreshStep(sem, f, f', at, ce, newId, st, st');
        RunOpsCons(sem, f', newId, [at] + rest, st');
      }
      RunOpsCons(sem, f', id, rest, u');
      StepAgrees(sem, f, f', at, ce, newId, id, st, u');
      var t, t' := StepOp(sem, f, id, st), StepOp(sem, f', id, u');
      ConstantsIgnoreEnv(sem, st'.env, u'.env, ce);
      ConstantsIgnoreEnv(sem, u'.env, t'.env, ce);
      BodyAgrees(sem, f, f', at, ce, newId, ids[1..], t, t');
    }
  }

  lemma InsertBeforeCons(ids: seq<Id>, at: Id, newId: Id)
    requires ids != []
    ensures var rest := InsertBefore(ids[1..], at, newId);
      InsertBefore(ids, at, newId) == if ids[0] == at then [newId] + ([at] + rest) else [ids[0]] + rest
  {
  }

  lemma NoOps<V, W>(sem: Sem<V, W>, f: Body, st: State<V, W>, at: Id, newId: Id)
    ensures InsertBefore([], at, newId) == [] && RunOps(sem, f, [], st) == st
  {
  }

  lemma NoPhis<V, W>(sem: Sem<V, W>, f: Body, pick: (Id, BlockId) -> nat, pred: BlockId, env0: map<Id, V>,
                     env: map<Id, V>, at: Id, newId: Id)
    ensures InsertBefore([], at, newId) == [] && RunPhis(sem, f, pick, [], pred, env0, env) == env
  {
  }

  lemma RunOpsCons<V, W>(sem: Sem<V, W>, f: Body, id: Id, ids: seq<Id>, st: State<V, W>)
    requires id in f.insts && forall x | x in ids :: x in f.insts
    ensures RunOps(sem, f, [id] + ids, st) == RunOps(sem, f, ids, StepOp(sem, f, id, st))
  {
  }

  lemma RunPhisCons<V, W>(sem: Sem<V, W>, f: Body, pick: (Id, BlockId) -> nat, id: Id, ids: seq<Id>, pred: BlockId,
                          env0: map<Id, V>, env: map<Id, V>)
    requires id in f.insts && forall x | x in ids :: x in f.insts
    ensures RunPhis(sem, f, pick, [id] + ids, pred, env0, env) ==
            RunPhis(sem, f, pick, ids, pred, env0, StepPhi(sem, f, pick, id, pred, env0, env))
  {
  }

  lemma ConvertedIds(f: Body, f': Body, at: Id, ce: Value, newId: Id)
    requires Converted(f, f', at, ce, newId)
    ensures newId !in f.insts && f'.insts.Keys == f.insts.Keys + {newId} && at in f.insts && f'.insts[newId].Op? &&
            IsConstant(ce)
  {
  }

  lemma {:induction false} PhisAgree<V, W>(sem: Sem<V, W>, f: Body, f': Body, pick: (Id, BlockId) -> nat, at: Id,
                                           ce: Value,
                                           newId: Id, ids: seq<Id>, pred: BlockId, st: State<V, W>, st': State<V, W>,
                                           env: map<Id, V>, env': map<Id, V>)
    requires WellFormed(f) && Converted(f, f', at, ce, newId)
    requires (forall id | id in ids :: id in f.insts) && Agree(st, st', newId)
    requires pred < |f.layout| && at in f.layout[pred] ==> Holds(st'.env, newId, Eval(sem, st'.env, ce))
    requires Agree(st.(env := env), st'.(env := env'), newId)
    ensures forall id | id in InsertBefore(ids, at, newId) :: id in f'.insts
    ensures var r := RunPhis(sem, f, pick, ids, pred, st.env, env);
            var r' := RunPhis(sem, f', pick, InsertBefore(ids, at, newId), pred, st'.env, env');
            && Agree(st.(env := r), st'.(env := r'), newId)
            && (newId in env' ==> Holds(r', newId, env'[newId]))
    decreases |ids|
  {
    hide WellFormed, Converted, Eval, InsertBefore, RunPhis, PhiValue;
    InsertBeforeIds(ids, at, newId);
    ConvertedIds(f, f', at, ce, newId);
    if ids == [] {
      NoPhis(sem, f, pick, pred, st.env, env, at, newId);
      NoPhis(sem, f', pick, pred, st'.env, env', at, newId);
    } else {
      var id, rest := ids[0], InsertBefore(ids[1..], at, newId);
      InsertBeforeIds(ids[1..], at, newId);
      InsertBeforeCons(ids, at, newId);
      assert ids == [id] + ids[1..];
      RunPhisCons(sem, f, pick, id, ids[1..], pred, st.env, env);
      if id == at { RunPhisCons(sem, f', pick, newId, [id] + rest, pred, st'.env, env'); }
      RunPhisCons(sem, f', pick, id, rest, pred, st'.env, env');
      StepPhiAgrees(sem, f, f', pick, at, ce, newId, id, pred, st, st', env, env');
      PhisAgree(sem, f, f', pick, at, ce, newId, ids[1..], pred, st, st',
                StepPhi(sem, f, pick, id, pred, st.env, env), StepPhi(sem, f', pick, id, pred, st'.env, env'));
    }
  }

  lemma StepPhiAgrees<V, W>(sem: Sem<V, W>, f: Body, f': Body, pick: (Id, BlockId) -> nat, at: Id, ce: Value, newId: Id,
                            id: Id, pred: BlockId, st: State<V, W>, st': State<V, W>, env: map<Id, V>, env': map<Id, V>)
    requires WellFormed(f) && Converted(f, f', at, ce, newId) && id in f.insts && Agree(st, st', newId)
    requires pred < |f.layout| && at in f.layout[pred] ==> Holds(st'.env, newId, Eval(sem, st'.env, ce))
    requires Agree(st.(env := env), st'.(env := env'), newId)
    ensures var r, r' := StepPhi(sem, f, pick, id, pred, st.env, env), StepPhi(sem, f', pick, id, pred, st'.env, env');
            && Agree(st.(env := r), st'.(env := r'), newId)
            && (newId in env' ==> Holds(r', newId, env'[newId]))
  {
    assert InstrConverted(f, id, f.insts[id], f'.insts[id], at, ce, newId);
    if f.insts[id].Phi? {
      PhiValueAgrees(sem, f, f', pick, at, ce, newId, id, pred, st, st');
    }
  }

  lemma PhiValueAgrees<V, W>(sem: Sem<V, W>, f: Body, f': Body, pick: (Id, BlockId) -> nat, at: Id, ce: Value,
                             newId: Id, id: Id, pred: BlockId, st: State<V, W>, st': State<V, W>)
    requires WellFormed(f) && Converted(f, f', at, ce, newId) && id in f.insts && f.insts[id].Phi?
    requires Agree(st, st', newId)
    requires pred < |f.layout| && at in f.layout[pred] ==> Holds(st'.env, newId, Eval(sem, st'.env, ce))
    ensures f'.insts[id].Phi?
    ensures PhiValue(sem, pick, id, f.insts[id].incoming, pred, st.env) ==
            PhiValue(sem, pick, id, f'.insts[id].incoming, pred, st'.env)
  {
    var inc := f.insts[id].incoming;
    assert InstrConverted(f, id, f.insts[id], f'.insts[id], at, ce, newId);
    var k := pick(id, pred);
    if k < |inc| && inc[k].block == pred {
      assert inc[k].value == Operands(f.insts[id])[k];
      assert WellFormedInstr(f, f.insts[id]);
      OperandAgrees(sem, f, st, st', inc[k].value, f'.insts[id].incoming[k].value, ce, newId);
    }
  }

  /** What holds between the runs of `f` and `f'` after block `pred`. */
  ghost predicate InStep<V, W>(sem: Sem<V, W>, f: Body, at: Id, ce: Value, newId: Id, pred: BlockId,
                               st: State<V, W>, st': State<V, W>) {
    && Agree(st, st', newId)
    && (pred < |f.layout| && at in f.layout[pred] ==> Holds(st'.env, newId, Eval(sem, st'.env, ce)))
  }

  lemma {:induction false} PathAgrees<V, W>(sem: Sem<V, W>, f: Body, f': Body, pick: (Id, BlockId) -> nat, at: Id,
                                            ce: Value,
                                            newId: Id, path: seq<BlockId>, pred: BlockId, st: State<V, W>,
                                                st': State<V, W>)
    requires WellFormed(f) && WellFormed(f') && Converted(f, f', at, ce, newId) && IsPath(f, path)
    requires InStep(sem, f, at, ce, newId, pred, st, st')
    ensures Agree(RunPath(sem, f, pick, path, pred, st), RunPath(sem, f', pick, path, pred, st'), newId)
    decreases |path|
  {
    if path != [] {
      var b := path[0];
      PhisAgree(sem, f, f', pick, at, ce, newId, f.layout[b], pred, st, st', st.env, st'.env);
      var env := RunPhis(sem, f, pick, f.layout[b], pred, st.env, st.env);
      var env' := RunPhis(sem, f', pick, f'.layout[b], pred, st'.env, st'.env);
      BodyAgrees(sem, f, f', at, ce, newId, f.layout[b], st.(env := env), st'.(env := env'));
      PathAgrees(sem, f, f', pick, at, ce, newId, path[1..], b,
                 RunBlock(sem, f, pick, b, pred, st), RunBlock(sem, f', pick, b, pred, st'));
    }
  }

  /** One conversion changes nothing but the new instruction's own result. */
  lemma ConversionPreserves<V, W>(sem: Sem<V, W>, f: Body, f': Body, pick: (Id, BlockId) -> nat, at: Id, ce: Value,
                                  newId: Id, path: seq<BlockId>, st: State<V, W>)
    requires WellFormed(f) && WellFormed(f') && Converted(f, f', at, ce, newId) && IsPath(f, path)
    ensures IsPath(f', path) && Agree(Run(sem, f, pick, path, st), Run(sem, f', pick, path, st), newId)
  {
    if path != [] {
      var b := path[0];
      BodyAgrees(sem, f, f', at, ce, newId, f.layout[b], st, st);
      PathAgrees(sem, f, f', pick, at, ce, newId, path[1..], b,
                 RunOps(sem, f, f.layout[b], st), RunOps(sem, f', f'.layout[b], st));
    }
  }

  // ---------- sequences of conversions ----------

  ghost predicate Conversion(f: Body, f': Body) {
    WellFormed(f) && WellFormed(f') && exists at, ce, newId :: Converted(f, f', at, ce, newId)
  }

  /** `f'` results from `f` by `n` conversions. */
  ghost predicate ConvertsIn(n: nat, f: Body, f': Body) {
    if n == 0 then f' == f && WellFormed(f)
    else exists g :: ConvertsIn(n - 1, f, g) && Conversion(g, f')
  }

  ghost predicate Converts(f: Body, f': Body) {
    exists n: nat :: ConvertsIn(n, f, f')
  }

  lemma ConvertsMore(f: Body, g: Body, f': Body, at: Id, ce: Value, newId: Id)
    requires Converts(f, g) && WellFormed(g) && WellFormed(f') && Converted(g, f', at, ce, newId)
    ensures Converts(f, f')
  {
    var n: nat :| ConvertsIn(n, f, g);
    assert Conversion(g, f');
    assert ConvertsIn(n + 1, f, f');
  }

  /** Every original instruction has the same result on both sides, and the
      world is the same. */
  ghost predicate SameOn<V, W>(ids: set<Id>, st: State<V, W>, st': State<V, W>) {
    && st.world == st'.world
    && forall id | id in ids :: (id in st.env <==> id in st'.env) && (id in st.env ==> st.env[id] == st'.env[id])
  }

  lemma {:induction false} ConvertsInPreserves<V, W>(n: nat, sem: Sem<V, W>, f: Body, f': Body,
                                                     pick: (Id, BlockId) -> nat,
                                                     path: seq<BlockId>, st: State<V, W>)
    requires ConvertsIn(n, f, f') && WellFormed(f) && IsPath(f, path)
    ensures WellFormed(f') && IsPath(f', path) && f.insts.Keys <= f'.insts.Keys
    ensures SameOn(f.insts.Keys, Run(sem, f, pick, path, st), Run(sem, f', pick, path, st))
  {
    hide WellFormed, Converted, Run;
    if n != 0 {
      var g :| ConvertsIn(n - 1, f, g) && Conversion(g, f');
      ConvertsInPreserves(n - 1, sem, f, g, pick, path, st);
      var at, ce, newId :| Converted(g, f', at, ce, newId);
      ConversionPreserves(sem, g, f', pick, at, ce, newId, path, st);
      ConvertedIds(g, f', at, ce, newId);
    }
  }

  /** Along any control path from the entry, whatever the opcodes mean, the
      converted function gives every original instruction the value it had. */
  lemma MeaningPreserved<V, W>(sem: Sem<V, W>, f: Body, f': Body, pick: (Id, BlockId) -> nat,
                               path: seq<BlockId>, st: State<V, W>)
    requires Converts(f, f') && WellFormed(f) && IsPath(f, path)
    ensures WellFormed(f') && IsPath(f', path) && f.insts.Keys <= f'.insts.Keys
    ensures SameOn(f.insts.Keys, Run(sem, f, pick, path, st), Run(sem, f', pick, path, st))
  {
    var n: nat :| ConvertsIn(n, f, f');
    ConvertsInPreserves(n, sem, f, f', pick, path, st);
  }
}
