/** The pass that turns constant GEP, binary and unary expressions into
    instructions: a worklist over one function at a time, with the new
    instruction of a phi operand placed at the end of the incoming block. */
module BreakConstantExpr {
  import opened LLVMIR
  import opened ConstantConversion
  import opened Placement

  predicate HasConstantGEP(v: Value) {
    v.ConstExpr? && (v.op.GetElementPtr? || exists k | 0 <= k < |v.args| :: HasConstantGEP(v.args[k]))
  }

  predicate HasConstantBinaryOrUnaryOp(v: Value) {
    v.ConstExpr? &&
    (v.op.BinaryOp? || v.op.UnaryOp? || exists k | 0 <= k < |v.args| :: HasConstantBinaryOrUnaryOp(v.args[k]))
  }

  predicate HasConstantExpr(v: Value) {
    HasConstantGEP(v) || HasConstantBinaryOrUnaryOp(v)
  }

  // ---------- what the pass must and can remove ----------

  /** A constant expression the pass exists to remove. */
  predicate Breakable(e: Value) {
    e.ConstExpr? && (e.op.GetElementPtr? || e.op.BinaryOp? || e.op.UnaryOp?)
  }

  /** The constant expressions nested in `v`, not looking into aggregates. */
  ghost function ExprParts(v: Value): set<Value> {
    {v} + if v.ConstExpr? then set k, e | 0 <= k < |v.args| && e in ExprParts(v.args[k]) :: e else {}
  }

  /** Everything nested in `v`. */
  ghost function AllParts(v: Value): set<Value> {
    {v} + match v
      case ConstExpr(_, xs) => set k, e | 0 <= k < |xs| && e in AllParts(xs[k]) :: e
      case Aggregate(es) => set k, e | 0 <= k < |es| && e in AllParts(es[k]) :: e
      case _ => {}
  }

  /** A breakable expression inside a constant aggregate. */
  ghost predicate Hidden(v: Value) {
    exists a, e :: a in AllParts(v) && a.Aggregate? && e in AllParts(a) && Breakable(e)
  }

  lemma {:induction false} GEPIsPart(v: Value)
    ensures HasConstantGEP(v) <==> exists e :: e in ExprParts(v) && e.ConstExpr? && e.op.GetElementPtr?
  {
    if v.ConstExpr? {
      forall k | 0 <= k < |v.args| ensures HasConstantGEP(v.args[k]) <==>
          exists e :: e in ExprParts(v.args[k]) && e.ConstExpr? && e.op.GetElementPtr?
      {
        GEPIsPart(v.args[k]);
      }
    }
  }

  lemma {:induction false} OpIsPart(v: Value)
    ensures HasConstantBinaryOrUnaryOp(v) <==>
              exists e :: e in ExprParts(v) && e.ConstExpr? && (e.op.BinaryOp? || e.op.UnaryOp?)
  {
    if v.ConstExpr? {
      forall k | 0 <= k < |v.args| ensures HasConstantBinaryOrUnaryOp(v.args[k]) <==>
          exists e :: e in ExprParts(v.args[k]) && e.ConstExpr? && (e.op.BinaryOp? || e.op.UnaryOp?)
      {
        OpIsPart(v.args[k]);
      }
    }
  }

  /** The two recursive tests together find exactly the operands with a breakable
      expression at some depth of constant expressions. */
  lemma HasConstantExprIff(v: Value)
    ensures HasConstantExpr(v) <==> exists e :: e in ExprParts(v) && Breakable(e)
  {
    GEPIsPart(v);
    OpIsPart(v);
  }

  lemma {:induction false} ExprPartsAreParts(v: Value)
    ensures ExprParts(v) <= AllParts(v)
  {
    if v.ConstExpr? {
      forall k | 0 <= k < |v.args| ensures ExprParts(v.args[k]) <= AllParts(v.args[k]) {
        ExprPartsAreParts(v.args[k]);
      }
    }
  }

  lemma {:induction false} PartsTransitive(v: Value, a: Value, e: Value)
    requires a in AllParts(v) && e in AllParts(a)
    ensures e in AllParts(v)
  {
    if a != v {
      var xs := if v.ConstExpr? then v.args else v.elems;
      var k :| 0 <= k < |xs| && a in AllParts(xs[k]);
      PartsTransitive(xs[k], a, e);
    }
  }

  /** A breakable part is found by the tests, or sits inside an aggregate. */
  lemma {:induction false} PartIsFoundOrHidden(v: Value, e: Value)
    requires e in AllParts(v) && Breakable(e)
    ensures HasConstantExpr(v) || Hidden(v)
  {
    HasConstantExprIff(v);
    if e != v {
      if v.Aggregate? {
        assert v in AllParts(v);
      } else {
        var k :| 0 <= k < |v.args| && e in AllParts(v.args[k]);
        PartIsFoundOrHidden(v.args[k], e);
        HasConstantExprIff(v.args[k]);
        if Hidden(v.args[k]) {
          var a, b :| a in AllParts(v.args[k]) && a.Aggregate? && b in AllParts(a) && Breakable(b);
          assert a in AllParts(v);
        }
      }
    }
  }

  /** Nothing is hidden directly in a constant expression, only in its arguments. */
  lemma HiddenInArgs(ce: Value)
    requires ce.ConstExpr?
    ensures Hidden(ce) <==> exists x :: x in ce.args && Hidden(x)
  {
    if Hidden(ce) {
      var a, e :| a in AllParts(ce) && a.Aggregate? && e in AllParts(a) && Breakable(e);
      var k :| 0 <= k < |ce.args| && a in AllParts(ce.args[k]);
      assert Hidden(ce.args[k]) && ce.args[k] in ce.args;
    }
    if x :| x in ce.args && Hidden(x) {
      var a, e :| a in AllParts(x) && a.Aggregate? && e in AllParts(a) && Breakable(e);
      assert a in AllParts(ce);
    }
  }

  lemma InstructionsAreClean()
    ensures forall id :: !HasConstantExpr(Inst(id))
  {
  }

  ghost predicate Dirty(i: Instr) {
    exists v :: v in Operands(i) && HasConstantExpr(v)
  }

  /** No operand in the body contains a breakable constant expression at any
      depth of constant expressions. */
  ghost predicate Clean(f: Body) {
    forall v, e | Uses(f, v) && e in ExprParts(v) :: !Breakable(e)
  }

  /** That is: neither the operands of instructions nor the incoming values of phis do. */
  lemma CleanMeans(f: Body)
    ensures Clean(f) <==>
              forall id | id in f.insts ::
                match f.insts[id]
                case Phi(inc) => forall k, e | 0 <= k < |inc| && e in ExprParts(inc[k].value) :: !Breakable(e)
                case Op(_, xs) => forall k, e | 0 <= k < |xs| && e in ExprParts(xs[k]) :: !Breakable(e)
  {
    forall id, k | id in f.insts && f.insts[id].Phi? && 0 <= k < |f.insts[id].incoming|
      ensures Uses(f, f.insts[id].incoming[k].value)
    {
      assert Operands(f.insts[id])[k] == f.insts[id].incoming[k].value;
      assert Operands(f.insts[id])[k] in Operands(f.insts[id]);
    }
    forall id, k | id in f.insts && f.insts[id].Op? && 0 <= k < |f.insts[id].operands|
      ensures Uses(f, f.insts[id].operands[k])
    {
      assert f.insts[id].operands[k] in Operands(f.insts[id]);
    }
  }

  ghost predicate CleanThroughAggregates(f: Body) {
    forall v, e | Uses(f, v) && e in AllParts(v) :: !Breakable(e)
  }

  ghost predicate HiddenIn(f: Body) {
    exists v :: Uses(f, v) && Hidden(v)
  }

  lemma ConversionKeepsHidden(f: Body, f': Body, at: Id, ce: Value, newId: Id)
    requires Converted(f, f', at, ce, newId)
    ensures HiddenIn(f) <==> HiddenIn(f')
  {
    HiddenInArgs(ce);
    if v :| Uses(f, v) && Hidden(v) {
      if v == ce {
        var x :| x in ce.args && Hidden(x);
        assert x in Operands(f'.insts[newId]);
        assert Uses(f', x);
      } else {
        UseKept(f, f', at, ce, newId, v);
      }
    }
    if v :| Uses(f', v) && Hidden(v) {
      UseComesFrom(f, f', at, ce, newId, v);
    }
  }

  lemma UseKept(f: Body, f': Body, at: Id, ce: Value, newId: Id, v: Value)
    requires Converted(f, f', at, ce, newId) && Uses(f, v) && v != ce
    ensures Uses(f', v)
  {
    var id :| id in f.insts && v in Operands(f.insts[id]);
    assert InstrConverted(f, id, f.insts[id], f'.insts[id], at, ce, newId);
    var k :| 0 <= k < |Operands(f.insts[id])| && Operands(f.insts[id])[k] == v;
    assert Operands(f'.insts[id])[k] == v;
  }

  lemma UseComesFrom(f: Body, f': Body, at: Id, ce: Value, newId: Id, v: Value)
    requires Converted(f, f', at, ce, newId) && Uses(f', v)
    ensures Uses(f, v) || v == Inst(newId) || v in ce.args
  {
    var id :| id in f'.insts && v in Operands(f'.insts[id]);
    if id != newId {
      assert InstrConverted(f, id, f.insts[id], f'.insts[id], at, ce, newId);
      var k :| 0 <= k < |Operands(f'.insts[id])| && Operands(f'.insts[id])[k] == v;
      assert Replaced(Operands(f.insts[id])[k], v, ce, newId);
      assert Operands(f.insts[id])[k] in Operands(f.insts[id]);
    }
  }

  lemma {:induction false} ConvertsInKeepsHidden(n: nat, f: Body, f': Body)
    requires ConvertsIn(n, f, f')
    ensures HiddenIn(f) <==> HiddenIn(f')
  {
    hide Converted, WellFormed, HiddenIn;
    if n != 0 {
      var g :| ConvertsIn(n - 1, f, g) && Conversion(g, f');
      ConvertsInKeepsHidden(n - 1, f, g);
      var at, ce, newId :| Converted(g, f', at, ce, newId);
      ConversionKeepsHidden(g, f', at, ce, newId);
    }
  }

  /** The pass removes every breakable expression, those in aggregates included,
      exactly when the original function has none inside an aggregate. */
  lemma CleanThroughAggregatesIff(f: Body, f': Body)
    requires Converts(f, f') && Clean(f')
    ensures CleanThroughAggregates(f') <==> !HiddenIn(f)
  {
    var n: nat :| ConvertsIn(n, f, f');
    ConvertsInKeepsHidden(n, f, f');
    if HiddenIn(f') {
      var v :| Uses(f', v) && Hidden(v);
      var a, e :| a in AllParts(v) && a.Aggregate? && e in AllParts(a) && Breakable(e);
      PartsTransitive(v, a, e);
    } else {
      forall v, e | Uses(f', v) && e in AllParts(v) ensures !Breakable(e) {
        if Breakable(e) {
          PartIsFoundOrHidden(v, e);
          HasConstantExprIff(v);
        }
      }
    }
  }

  // ---------- size, for termination ----------

  /** Number of constant expressions nested in `v`. */
  function ExprSize(v: Value): nat {
    if v.ConstExpr? then 1 + ExprSizes(v.args) else 0
  }

  function ExprSizes(vs: seq<Value>): nat {
    if vs == [] then 0 else ExprSize(vs[0]) + ExprSizes(vs[1..])
  }

  /** Total over the instructions with identifiers below `n`. */
  ghost function Total(insts: map<Id, Instr>, n: nat): nat {
    if n == 0 then 0
    else Total(insts, n - 1) + if n - 1 in insts then ExprSizes(Operands(insts[n - 1])) else 0
  }

  lemma {:induction false} TotalUpdate(insts: map<Id, Instr>, id: Id, i: Instr, n: nat)
    ensures Total(insts[id := i], n) ==
            Total(insts, n) + if id >= n then 0 else
                ExprSizes(Operands(i)) - (if id in insts then ExprSizes(Operands(insts[id])) else 0)
  {
    if n != 0 {
      TotalUpdate(insts, id, i, n - 1);
    }
  }

  lemma {:induction false} ReplacingShrinks(xs: seq<Value>, ys: seq<Value>, ce: Value, newId: Id)
    requires |xs| == |ys| && ce.ConstExpr?
    requires forall k | 0 <= k < |xs| :: Replaced(xs[k], ys[k], ce, newId)
    ensures ExprSizes(ys) + (if ys != xs then ExprSize(ce) else 0) <= ExprSizes(xs)
  {
    if xs != [] {
      ReplacingShrinks(xs[1..], ys[1..], ce, newId);
      assert xs == [xs[0]] + xs[1..] && ys == [ys[0]] + ys[1..];
    }
  }

  // ---------- rewriting one instruction ----------

  /** Every use of `ce` among `xs` now names the new instruction. */
  function ReplaceUses(xs: seq<Value>, ce: Value, newId: Id): (r: seq<Value>)
    ensures |r| == |xs|
    ensures forall k | 0 <= k < |xs| :: r[k] == if xs[k] == ce then Inst(newId) else xs[k]
  {
    seq(|xs|, k requires 0 <= k < |xs| => if xs[k] == ce then Inst(newId) else xs[k])
  }

  /** The entries for `block` from `from` up to `to` now name the new instruction. */
  function SetIncoming(inc: seq<Incoming>, from: nat, to: nat, block: BlockId, newId: Id): (r: seq<Incoming>)
    ensures |r| == |inc|
  {
    seq(|inc|, k requires 0 <= k < |inc| =>
      if from <= k < to && inc[k].block == block then Incoming(block, Inst(newId)) else inc[k])
  }

  function Inserted(layout: seq<seq<Id>>, at: Id, newId: Id): seq<seq<Id>> {
    seq(|layout|, b requires 0 <= b < |layout| => InsertBefore(layout[b], at, newId))
  }

  lemma InsertedWhere(layout: seq<seq<Id>>, at: Id, newId: Id)
    ensures PutBefore(layout, at, newId, Inserted(layout, at, newId))
  {
    forall b, i: nat | 0 <= b < |layout| && OnlyAt(layout[b], at, i)
      ensures Inserted(layout, at, newId)[b] == layout[b][..i] + [newId] + layout[b][i..]
    {
      InsertedOnce(layout[b], at, newId, i);
    }
    forall b | 0 <= b < |layout| && at !in layout[b] ensures Inserted(layout, at, newId)[b] == layout[b] {
      NotInserted(layout[b], at, newId);
    }
  }

  lemma ConvertedPlaced(f: Body, f': Body, at: Id, ce: Value, newId: Id)
    requires WellFormed(f) && Converted(f, f', at, ce, newId)
    ensures forall b, id | 0 <= b < |f'.layout| && id in f'.layout[b] :: id in f'.insts
    ensures forall id | id in f'.insts :: Placed(f', id)
  {
    hide WellFormedInstr, InstrConverted;
    forall b, id | 0 <= b < |f'.layout| && id in f'.layout[b] ensures id in f'.insts {
      InsertBeforeIds(f.layout[b], at, newId);
    }
    forall id | id in f'.insts ensures Placed(f', id) {
      var was := if id == newId then at else id;
      assert Placed(f, was);
      var b :| 0 <= b < |f.layout| && was in f.layout[b];
      InsertBeforeIds(f.layout[b], at, newId);
      assert id in f'.layout[b];
    }
  }

  lemma ConvertedWellFormed(f: Body, f': Body, at: Id, ce: Value, newId: Id)
    requires WellFormed(f) && Converted(f, f', at, ce, newId)
    requires forall id | id in f.insts && f'.insts[id].Phi? :: OneValuePerBlock(f'.insts[id].incoming)
    ensures WellFormed(f')
  {
    hide InstrConverted, OneValuePerBlock, WellFormedIncoming, Uses;
    ConvertedPlaced(f, f', at, ce, newId);
    forall id | id in f'.insts ensures WellFormedInstr(f', f'.insts[id]) {
      if id in f.insts {
        ConvertedInstrWellFormed(f, f', at, ce, newId, id);
      } else {
        forall v | v in ce.args ensures WellFormedOperand(f', v) {
          var k :| 0 <= k < |ce.args| && ce.args[k] == v;
          assert IsConstant(ce) && IsConstant(v);
        }
      }
    }
  }

  lemma ConvertedInstrWellFormed(f: Body, f': Body, at: Id, ce: Value, newId: Id, id: Id)
    requires WellFormed(f) && Converted(f, f', at, ce, newId) && id in f.insts
    requires f'.insts[id].Phi? ==> OneValuePerBlock(f'.insts[id].incoming)
    ensures WellFormedInstr(f', f'.insts[id])
  {
    var i, i' := f.insts[id], f'.insts[id];
    assert WellFormedInstr(f, i);
    assert InstrConverted(f, id, i, i', at, ce, newId);
    forall v | v in Operands(i') ensures WellFormedOperand(f', v) {
      var k :| 0 <= k < |Operands(i')| && Operands(i')[k] == v;
      assert Operands(i)[k] in Operands(i);
      assert Replaced(Operands(i)[k], v, ce, newId);
    }
    if i.Phi? {
      forall x | x in i'.incoming ensures WellFormedIncoming(f', x) {
        var k :| 0 <= k < |i'.incoming| && i'.incoming[k] == x;
        assert i.incoming[k] in i.incoming;
        assert WellFormedIncoming(f, i.incoming[k]);
        InsertBeforeIds(f.layout[x.block], at, newId);
        var last := f.layout[x.block][|f.layout[x.block]| - 1];
        assert InstrConverted(f, last, f.insts[last], f'.insts[last], at, ce, newId);
      }
    }
  }

  lemma OperandConverted(f: Body, f': Body, id: Id, index: nat, newId: Id)
    requires WellFormed(f) && id in f.insts && f.insts[id].Op? && index < |f.insts[id].operands| && newId !in f.insts
    requires HasConstantExpr(f.insts[id].operands[index])
    requires var xs := f.insts[id].operands; var ce := xs[index];
      && f'.insts == f.insts[newId := Op(Pure(ce.op), ce.args)][id := Op(f.insts[id].code, ReplaceUses(xs, ce, newId))]
      && f'.layout == Inserted(f.layout, id, newId)
    ensures Converted(f, f', id, f.insts[id].operands[index], newId)
    ensures forall x | x in f.insts && f'.insts[x].Phi? :: OneValuePerBlock(f'.insts[x].incoming)
    ensures OperandsReplaced(f.insts[id], f'.insts[id], f.insts[id].operands[index], newId)
  {
    var ce := f.insts[id].operands[index];
    assert WellFormedInstr(f, f.insts[id]) && ce in Operands(f.insts[id]);
    assert WellFormedOperand(f, ce);
    assert Operands(f'.insts[id])[index] == Inst(newId);
    forall x | x in f.insts && f'.insts[x].Phi? ensures OneValuePerBlock(f'.insts[x].incoming) {
      assert WellFormedInstr(f, f.insts[x]);
    }
  }

  /** Some operands of the instruction, and only occurrences of `ce`, changed. */
  ghost predicate OperandsReplaced(i: Instr, i': Instr, ce: Value, newId: Id) {
    var xs, ys := Operands(i), Operands(i');
    |xs| == |ys| && ys != xs && forall k | 0 <= k < |xs| :: Replaced(xs[k], ys[k], ce, newId)
  }

  lemma IncomingIsPlaced(f: Body, id: Id, index: nat)
    requires WellFormed(f) && id in f.insts && f.insts[id].Phi? && index < |f.insts[id].incoming|
    ensures WellFormedIncoming(f, f.insts[id].incoming[index])
  {
  }

  lemma IncomingConverted(f: Body, f': Body, id: Id, index: nat, newId: Id)
    requires WellFormed(f) && id in f.insts && f.insts[id].Phi? && index < |f.insts[id].incoming| && newId !in f.insts
    requires HasConstantExpr(f.insts[id].incoming[index].value)
    requires forall k | 0 <= k < index :: !HasConstantExpr(f.insts[id].incoming[k].value)
    requires WellFormedIncoming(f, f.insts[id].incoming[index])   // the incoming block has a terminator
    requires var inc := f.insts[id].incoming; var ce := inc[index].value; var block := inc[index].block;
      && f'.insts == f.insts[newId := Op(Pure(ce.op), ce.args)][id := Phi(SetIncoming(inc, index, |inc|, block, newId))]
      && f'.layout == Inserted(f.layout, f.layout[block][|f.layout[block]| - 1], newId)
    ensures var inc := f.insts[id].incoming; var block := inc[index].block;
      Converted(f, f', f.layout[block][|f.layout[block]| - 1], inc[index].value, newId)
    ensures forall x | x in f.insts && f'.insts[x].Phi? :: OneValuePerBlock(f'.insts[x].incoming)
    ensures OperandsReplaced(f.insts[id], f'.insts[id], f.insts[id].incoming[index].value, newId)
  {
    hide HasConstantExpr, OneValuePerBlock, WellFormed, Inserted, InsertBefore;
    var inc := f.insts[id].incoming;
    var ce, block := inc[index].value, inc[index].block;
    var at := f.layout[block][|f.layout[block]| - 1];
    IncomingFacts(f, id, index);
    IncomingReplaced(inc, index, newId);
    OthersKeepOneValue(f, f'.insts, id, newId);
    assert Operands(f.insts[id])[index] == ce && Operands(f'.insts[id])[index] == Inst(newId);
    forall x | x in f.insts ensures InstrConverted(f, x, f.insts[x], f'.insts[x], at, ce, newId) {
    }
    ConvertedLayout(f, f', at, newId);
  }

  lemma ConvertedLayout(f: Body, f': Body, at: Id, newId: Id)
    requires f'.layout == Inserted(f.layout, at, newId)
    ensures |f'.layout| == |f.layout|
    ensures forall b | 0 <= b < |f.layout| :: f'.layout[b] == InsertBefore(f.layout[b], at, newId)
  {
  }

  lemma IncomingFacts(f: Body, id: Id, index: nat)
    requires WellFormed(f) && id in f.insts && f.insts[id].Phi? && index < |f.insts[id].incoming|
    requires HasConstantExpr(f.insts[id].incoming[index].value)
    ensures var ce := f.insts[id].incoming[index].value; ce.ConstExpr? && IsConstant(ce) && Uses(f, ce)
    ensures OneValuePerBlock(f.insts[id].incoming)
  {
    var ce := f.insts[id].incoming[index].value;
    assert ce == Operands(f.insts[id])[index];
    assert ce in Operands(f.insts[id]);
    assert WellFormedInstr(f, f.insts[id]) && WellFormedOperand(f, ce);
  }

  lemma OthersKeepOneValue(f: Body, insts: map<Id, Instr>, id: Id, newId: Id)
    requires WellFormed(f) && id in insts && insts[id].Phi? && OneValuePerBlock(insts[id].incoming)
    requires forall x | x in f.insts && x != id :: x in insts && insts[x] == f.insts[x]
    ensures forall x | x in f.insts && x in insts && insts[x].Phi? :: OneValuePerBlock(insts[x].incoming)
  {
  }

  /** When a phi gives each block one value, the first entry of a block with a
      breakable value finds all the others at or after it. */
  lemma IncomingReplaced(inc: seq<Incoming>, index: nat, newId: Id)
    requires index < |inc| && OneValuePerBlock(inc) && HasConstantExpr(inc[index].value)
    requires forall k | 0 <= k < index :: !HasConstantExpr(inc[k].value)
    ensures var r := SetIncoming(inc, index, |inc|, inc[index].block, newId);
      && OneValuePerBlock(r)
      && forall k | 0 <= k < |inc| ::
           r[k] == if inc[k].block == inc[index].block then Incoming(inc[k].block, Inst(newId)) else inc[k]
    ensures forall k | 0 <= k < |inc| && inc[k].block == inc[index].block :: inc[k].value == inc[index].value
  {
  }

  /** Converting `ce` removes at least one occurrence of it and adds one
      instruction whose operands are smaller by one. */
  lemma LessWork(insts: map<Id, Instr>, insts': map<Id, Instr>, id: Id, ce: Value, newId: Id)
    requires id in insts && id < newId && newId !in insts && ce.ConstExpr? && id in insts'
    requires insts' == insts[newId := Op(Pure(ce.op), ce.args)][id := insts'[id]]
    requires OperandsReplaced(insts[id], insts'[id], ce, newId)
    ensures Total(insts', newId + 1) < Total(insts, newId)
  {
    var mid := insts[newId := Op(Pure(ce.op), ce.args)];
    TotalUpdate(insts, newId, Op(Pure(ce.op), ce.args), newId + 1);
    TotalUpdate(mid, id, insts'[id], newId + 1);
    ReplacingShrinks(Operands(insts[id]), Operands(insts'[id]), ce, newId);
  }

  class Function {
    var layout: seq<seq<Id>>
    var insts: map<Id, Instr>
    var nextId: Id

    constructor (body: Body, next: Id)
      requires WellFormed(body) && forall id | id in body.insts :: id < next
      ensures Valid() && Abs() == body
    {
      layout, insts, nextId := body.layout, body.insts, next;
    }

    ghost function Abs(): Body
      reads this
    {
      Body(layout, insts)
    }

    ghost predicate Valid()
      reads this
    {
      WellFormed(Abs()) && forall id | id in insts :: id < nextId
    }

    /** The remaining work, an upper bound on the conversions to come. */
    ghost function Work(): nat
      reads this
    {
      Total(insts, nextId)
    }

    /** The new instruction, right before `insertPt`; no recursion, so its own
        operands may be constant expressions. */
    method ConvertExpression(ce: Value, insertPt: Id) returns (newId: Id)
      requires ce.ConstExpr?
      modifies this
      ensures newId == old(nextId) && nextId == newId + 1
      ensures insts == old(insts)[newId := Op(Pure(ce.op), ce.args)]
      ensures layout == Inserted(old(layout), insertPt, newId) && PutBefore(old(layout), insertPt, newId, layout)
    {
      InsertedWhere(layout, insertPt, nextId);
      newId := nextId;
      nextId := nextId + 1;
      insts := insts[newId := Op(Pure(ce.op), ce.args)];
      layout := Inserted(layout, insertPt, newId);
    }

    /** Operand `index` of the non-phi instruction `id` becomes an instruction
        just before it. */
    method BreakOperand(id: Id, index: nat, ghost start: Body) returns (newId: Id)
      requires Valid() && Converts(start, Abs())
      requires id in insts && insts[id].Op? && index < |insts[id].operands|
      requires HasConstantExpr(insts[id].operands[index])
      modifies this
      ensures Valid() && Converts(start, Abs()) && Work() < old(Work())
      ensures newId == old(nextId) && PutBefore(old(layout), id, newId, layout)
      ensures var xs := old(insts)[id].operands; var ce := xs[index];
        insts == old(insts)[newId := Op(Pure(ce.op), ce.args)]
                           [id := Op(old(insts)[id].code, ReplaceUses(xs, ce, newId))]
    {
      hide WellFormed, Converted, Converts, Total, OneValuePerBlock, OperandsReplaced, PutBefore;
      ghost var f := Abs();
      var xs := insts[id].operands;
      var ce := xs[index];
      newId := ConvertExpression(ce, id);
      insts := insts[id := Op(insts[id].code, ReplaceUses(xs, ce, newId))];
      OperandConverted(f, Abs(), id, index, newId);
      ConvertedWellFormed(f, Abs(), id, ce, newId);
      ConvertsMore(start, f, Abs(), id, ce, newId);
      LessWork(f.insts, insts, id, ce, newId);
    }

    /** Incoming value `index` of phi `id` becomes an instruction before the
        terminator of its block, for all later entries of that block too. */
    method BreakIncoming(id: Id, index: nat, ghost start: Body) returns (newId: Id)
      requires Valid() && Converts(start, Abs())
      requires id in insts && insts[id].Phi? && index < |insts[id].incoming|
      requires HasConstantExpr(insts[id].incoming[index].value)
      requires forall k | 0 <= k < index :: !HasConstantExpr(insts[id].incoming[k].value)
      modifies this
      ensures Valid() && Converts(start, Abs()) && Work() < old(Work())
      ensures newId == old(nextId)
      ensures exists last :: EndsWith(old(Abs()), old(insts)[id].incoming[index].block, last) &&
                PutBefore(old(layout), last, newId, layout)
      ensures var inc := old(insts)[id].incoming; var ce := inc[index].value;
        insts == old(insts)[newId := Op(Pure(ce.op), ce.args)][id :=
          Phi(SetIncoming(inc, index, |inc|, inc[index].block, newId))]
    {
      hide WellFormed, Converted, Converts, Total, OneValuePerBlock, OperandsReplaced, PutBefore;
      ghost var f := Abs();
      IncomingIsPlaced(f, id, index);
      var inc := insts[id].incoming;
      var block, ce := inc[index].block, inc[index].value;
      var insertPt := layout[block][|layout[block]| - 1];
      newId := ConvertExpression(ce, insertPt);
      SetIncomingValues(id, index, newId);
      IncomingConverted(f, Abs(), id, index, newId);
      ConvertedWellFormed(f, Abs(), insertPt, ce, newId);
      ConvertsMore(start, f, Abs(), insertPt, ce, newId);
      LessWork(f.insts, insts, id, ce, newId);
    }

    method SetIncomingValues(id: Id, index: nat, newId: Id)
      requires id in insts && insts[id].Phi? && index < |insts[id].incoming|
      modifies `insts
      ensures var inc := old(insts)[id].incoming;
        insts == old(insts)[id := Phi(SetIncoming(inc, index, |inc|, inc[index].block, newId))]
    {
      ghost var inc := insts[id].incoming;
      var block := insts[id].incoming[index].block;
      var i2 := index;
      assert SetIncoming(inc, index, index, block, newId) == inc;
      while i2 < |insts[id].incoming|
        invariant id in insts && insts[id].Phi? && index <= i2 <= |inc| == |insts[id].incoming|
        invariant insts == old(insts)[id := Phi(SetIncoming(inc, index, i2, block, newId))]
      {
        var now := insts[id].incoming;
        if now[i2].block == block {
          insts := insts[id := Phi(now[i2 := Incoming(block, Inst(newId))])];
        }
        assert insts[id].incoming == SetIncoming(inc, index, i2 + 1, block, newId);
        i2 := i2 + 1;
      }
    }

    /** Scans one instruction from the worklist, converting each operand that
        needs it; the new instructions join the worklist. */
    method ProcessInstruction(id: Id, worklist: seq<Id>, ghost start: Body) returns (r: seq<Id>)
      requires Valid() && Converts(start, Abs()) && id in insts
      requires forall x | x in insts && Dirty(insts[x]) :: x == id || x in worklist
      requires forall x | x in worklist :: x in insts
      modifies this
      ensures Valid() && Converts(start, Abs())
      ensures forall x | x in insts && Dirty(insts[x]) :: x in r
      ensures forall x | x in r :: x in insts
      ensures Work() < old(Work()) || (Work() == old(Work()) && r == worklist)
    {
      hide WellFormed, Converts, Total, HasConstantExpr;
      r := worklist;
      var index := 0;
      while index < |Operands(insts[id])|
        invariant Valid() && Converts(start, Abs()) && id in insts && index <= |Operands(insts[id])|
        invariant forall k | 0 <= k < index :: !HasConstantExpr(Operands(insts[id])[k])
        invariant forall x | x in insts && Dirty(insts[x]) :: x == id || x in r
        invariant forall x | x in r :: x in insts
        invariant Work() < old(Work()) || (Work() == old(Work()) && r == worklist)
        decreases |Operands(insts[id])| - index
      {
        if HasConstantExpr(Operands(insts[id])[index]) {
          ghost var before := insts;
          var newId;
          InstructionsAreClean();
          if insts[id].Phi? {
            assert forall k | 0 <= k < |insts[id].incoming| :: Operands(insts[id])[k] == insts[id].incoming[k].value;
            newId := BreakIncoming(id, index, start);
          } else {
            newId := BreakOperand(id, index, start);
          }
          assert forall k | 0 <= k <= index ::
              Operands(insts[id])[k] == Operands(before[id])[k] || Operands(insts[id])[k] == Inst(newId);
          r := r + [newId];
        }
        index := index + 1;
      }
    }

    /** The initial worklist: an instruction once for each operand that needs
        converting. */
    method CollectWorklist() returns (worklist: seq<Id>)
      requires Valid()
      ensures forall x :: x in worklist <==> x in insts && Dirty(insts[x])
    {
      worklist := [];
      for b := 0 to |layout|
        invariant forall x :: x in worklist <==>
                    exists j :: 0 <= j < b && x in layout[j] && x in insts && Dirty(insts[x])
      {
        ghost var before := worklist;
        for i := 0 to |layout[b]|
          invariant forall x :: x in worklist <==>
                      x in before || (x in layout[b][..i] && x in insts && Dirty(insts[x]))
        {
          var id := layout[b][i];
          assert layout[b][..i + 1] == layout[b][..i] + [id];
          worklist := worklist + Repeats(id);
        }
        assert layout[b][..|layout[b]|] == layout[b];
      }
      forall x | x in insts && Dirty(insts[x]) ensures x in worklist {
        assert Placed(Abs(), x);
      }
    }

    /** `id`, once for each of its operands that needs converting. */
    function Repeats(id: Id): (r: seq<Id>)
      reads this
      requires id in insts
      ensures forall x :: x in r <==> x == id && Dirty(insts[id])
    {
      var xs := Operands(insts[id]);
      RepeatsUpTo(id, xs, |xs|)
    }

    function RepeatsUpTo(id: Id, xs: seq<Value>, n: nat): (r: seq<Id>)
      requires n <= |xs|
      ensures forall x :: x in r <==> x == id && exists k :: 0 <= k < n && HasConstantExpr(xs[k])
    {
      if n == 0 then []
      else RepeatsUpTo(id, xs, n - 1) + if HasConstantExpr(xs[n - 1]) then [id] else []
    }

    /** The pass on one function. */
    method RunOnFunction() returns (modified: bool)
      requires Valid()
      modifies this
      ensures Valid() && Converts(old(Abs()), Abs()) && Clean(Abs())
      ensures OrderKept(old(Abs()), Abs())
      ensures Arranged(old(Abs())) ==> Arranged(Abs()) && NewWhereUsed(old(Abs()), Abs())
      ensures modified == !Clean(old(Abs()))
      ensures !modified ==> Abs() == old(Abs())
    {
      hide WellFormed, Converts, Total, HasConstantExpr, Dirty, Clean, OrderKept, Arranged, NewWhereUsed;
      ghost var start := Abs();
      StartConverts(start);
      var worklist := CollectWorklist();
      modified := |worklist| != 0;
      CleanIff(start);
      if modified { assert worklist[0] in worklist; }
      while |worklist| != 0
        invariant Valid() && Converts(start, Abs())
        invariant forall x | x in insts && Dirty(insts[x]) :: x in worklist
        invariant forall x | x in worklist :: x in insts
        invariant !modified ==> worklist == [] && Abs() == start
        decreases Work(), |worklist|
      {
        var id := worklist[|worklist| - 1];
        var rest := worklist[..|worklist| - 1];
        assert worklist == rest + [id];
        worklist := ProcessInstruction(id, rest, start);
      }
      CleanIff(Abs());
      ConvertsPlaces(start, Abs());
      if Arranged(start) { ConvertsWhereUsed(start, Abs()); }
    }
  }

  /** The pass on a module: every function in turn. */
  method RunOnModule(functions: seq<Function>) returns (modified: bool)
    requires forall i, j | 0 <= i < j < |functions| :: functions[i] != functions[j]
    requires forall i | 0 <= i < |functions| :: functions[i].Valid()
    modifies functions
    ensures forall i | 0 <= i < |functions| ::
              && functions[i].Valid()
              && Converts(old(functions[i].Abs()), functions[i].Abs())
              && Clean(functions[i].Abs())
              && OrderKept(old(functions[i].Abs()), functions[i].Abs())
              && (Arranged(old(functions[i].Abs())) ==>
                    Arranged(functions[i].Abs()) && NewWhereUsed(old(functions[i].Abs()), functions[i].Abs()))
    ensures modified == exists i :: 0 <= i < |functions| && !Clean(old(functions[i].Abs()))
  {
    hide Converts, Clean, WellFormed, OrderKept, Arranged, NewWhereUsed;
    modified := false;
    for i := 0 to |functions|
      invariant forall j | 0 <= j < |functions| :: functions[j].Valid()
      invariant forall j | 0 <= j < i ::
                  && Converts(old(functions[j].Abs()), functions[j].Abs()) && Clean(functions[j].Abs())
                  && OrderKept(old(functions[j].Abs()), functions[j].Abs())
                  && (Arranged(old(functions[j].Abs())) ==>
                        Arranged(functions[j].Abs()) && NewWhereUsed(old(functions[j].Abs()), functions[j].Abs()))
      invariant forall j | i <= j < |functions| :: functions[j].Abs() == old(functions[j].Abs())
      invariant modified == exists j :: 0 <= j < i && !Clean(old(functions[j].Abs()))
    {
      var m := functions[i].RunOnFunction();
      modified := modified || m;
    }
  }

  lemma StartConverts(f: Body)
    requires WellFormed(f)
    ensures Converts(f, f)
  {
    assert ConvertsIn(0, f, f);
  }

  lemma CleanIff(f: Body)
    ensures Clean(f) <==> forall x | x in f.insts :: !Dirty(f.insts[x])
  {
    forall v ensures HasConstantExpr(v) <==> exists e :: e in ExprParts(v) && Breakable(e) {
      HasConstantExprIff(v);
    }
    if forall x | x in f.insts :: !Dirty(f.insts[x]) {
      forall v, e | Uses(f, v) && e in ExprParts(v) ensures !Breakable(e) {
      }
    }
    if Clean(f) {
      forall x, v | x in f.insts && v in Operands(f.insts[x]) ensures !HasConstantExpr(v) {
        assert Uses(f, v);
      }
    }
  }

  // ---------- where the pass falls short of its description ----------

  /** A store of a constant aggregate that holds a GEP is left alone, although the
      pass is described as changing all GEP constant expressions. */
  lemma GepInAggregateStays()
    ensures var gep := ConstExpr(GetElementPtr, [Leaf(0)]);
      var store, ret := Op(Native(0), [Aggregate([gep]), Leaf(1)]), Op(Native(1), []);
      var f := Body([[0, 1]], map[0 := store, 1 := ret]);
      WellFormed(f) && Clean(f) && !CleanThroughAggregates(f)
  {
    var gep := ConstExpr(GetElementPtr, [Leaf(0)]);
    var agg := Aggregate([gep]);
    var f := Body([[0, 1]], map[0 := Op(Native(0), [agg, Leaf(1)]), 1 := Op(Native(1), [])]);
    assert 0 in f.layout[0] && 1 in f.layout[0];
    assert Placed(f, 0) && Placed(f, 1);
    assert IsConstant(gep);
    assert agg in Operands(f.insts[0]);
    assert gep in AllParts(gep) && gep == agg.elems[0];
    assert Uses(f, agg) && gep in AllParts(agg) && Breakable(gep);
  }

  /** Terms as values: every constant means itself. */
  ghost function TermSem(): Sem<Value, ()> {
    Sem(n => Leaf(n), es => Aggregate(es), (op, xs) => ConstExpr(op, xs), (k, xs, w) => (Leaf(k), ()), Leaf(0))
  }

  lemma {:induction false} TermEval(env: map<Id, Value>, v: Value)
    requires IsConstant(v)
    ensures Eval(TermSem(), env, v) == v
  {
    if v.Aggregate? || v.ConstExpr? {
      var xs := if v.Aggregate? then v.elems else v.args;
      forall k | 0 <= k < |xs| ensures Eval(TermSem(), env, xs[k]) == xs[k] {
        TermEval(env, xs[k]);
      }
      assert EvalAll(TermSem(), env, xs) == xs;
    }
  }

  /** Rewriting the later entries of a phi's block with the first entry's new
      instruction keeps every entry's value, in every environment, exactly when
      the phi lists one value for that block from there on. */
  lemma PhiRewriteKeepsValuesIff(inc: seq<Incoming>, index: nat, newId: Id)
    requires index < |inc| && IsConstant(inc[index].value)
    requires forall k | 0 <= k < |inc| :: inc[k].value.Inst? || IsConstant(inc[k].value)
    requires forall k | 0 <= k < |inc| :: inc[k].value != Inst(newId)
    ensures (forall env: map<Id, Value>, k |
               0 <= k < |inc| && Holds(env, newId, inc[index].value) ::
               Eval(TermSem(), env, SetIncoming(inc, index, |inc|, inc[index].block, newId)[k].value) ==
               Eval(TermSem(), env, inc[k].value))
            <==>
            (forall k | index <= k < |inc| && inc[k].block == inc[index].block :: inc[k].value == inc[index].value)
  {
    var ce, block := inc[index].value, inc[index].block;
    var r := SetIncoming(inc, index, |inc|, block, newId);
    if forall k | index <= k < |inc| && inc[k].block == block :: inc[k].value == ce {
      forall env: map<Id, Value>, k | 0 <= k < |inc| && Holds(env, newId, ce)
        ensures Eval(TermSem(), env, r[k].value) == Eval(TermSem(), env, inc[k].value)
      {
        TermEval(env, ce);
      }
    } else {
      var k :| index <= k < |inc| && inc[k].block == block && inc[k].value != ce;
      var v := inc[k].value;
      var other := if ce == Leaf(0) then Leaf(1) else Leaf(0);
      var env: map<Id, Value> := map[newId := ce];
      if v.Inst? { env := env[v.id := other]; } else { TermEval(env, v); }
      assert Holds(env, newId, ce);
      assert r[k].value == Inst(newId);
      assert Eval(TermSem(), env, r[k].value) != Eval(TermSem(), env, v);
    }
  }
}
