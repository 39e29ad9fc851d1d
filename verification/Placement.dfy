/** Where conversions put the new instructions: right before the instruction that asks
    for them, so that original instructions keep their order, phis stay first in their
    blocks, and nothing stands in two places. */
module Placement {
  import opened LLVMIR
  import opened ConstantConversion

  // ---------- one block ----------

  /** `at` stands in the list at index `i` and nowhere else. */
  predicate OnlyAt(ids: seq<Id>, at: Id, i: nat) {
    i < |ids| && ids[i] == at && at !in ids[..i] && at !in ids[i + 1..]
  }

  lemma {:induction false} InsertedOnce(ids: seq<Id>, at: Id, newId: Id, i: nat)
    requires OnlyAt(ids, at, i)
    ensures InsertBefore(ids, at, newId) == ids[..i] + [newId] + ids[i..]
  {
    if i == 0 {
      NotInserted(ids[1..], at, newId);
    } else {
      assert ids[0] in ids[..i] && ids[1..][..i - 1] == ids[..i][1..] && ids[1..][i..] == ids[i + 1..];
      InsertedOnce(ids[1..], at, newId, i - 1);
    }
  }

  lemma {:induction false} NotInserted(ids: seq<Id>, at: Id, newId: Id)
    requires at !in ids
    ensures InsertBefore(ids, at, newId) == ids
  {
    if ids != [] { NotInserted(ids[1..], at, newId); }
  }

  /** The layout `l'` is `l` with `newId` right before `at`, if that stands once. */
  ghost predicate PutBefore(l: seq<seq<Id>>, at: Id, newId: Id, l': seq<seq<Id>>) {
    && |l'| == |l|
    && (forall b, i: nat | 0 <= b < |l| && OnlyAt(l[b], at, i) :: l'[b] == l[b][..i] + [newId] + l[b][i..])
    && forall b | 0 <= b < |l| && at !in l[b] :: l'[b] == l[b]
  }

  // ---------- a whole body ----------

  /** Instruction `id` stands in block `b` at index `j`. */
  predicate Stands(f: Body, id: Id, b: BlockId, j: nat) {
    b < |f.layout| && j < |f.layout[b]| && f.layout[b][j] == id
  }

  ghost predicate PlacedOnce(f: Body) {
    forall id, b, j, c, k | Stands(f, id, b, j) && Stands(f, id, c, k) :: b == c && j == k
  }

  predicate IsPhi(f: Body, id: Id) {
    id in f.insts && f.insts[id].Phi?
  }

  ghost predicate PhisFirst(f: Body) {
    forall b, x, j: nat, y, k: nat | Stands(f, x, b, j) && Stands(f, y, b, k) && j < k && IsPhi(f, y) :: IsPhi(f, x)
  }

  /** As in valid code: every instruction has one place, and the phis of a block come
      before all others. */
  ghost predicate Arranged(f: Body) {
    PlacedOnce(f) && PhisFirst(f)
  }

  /** Where the conversion before `(b0, i)` has taken an original instruction from. */
  function Before(b0: BlockId, i: nat, b: BlockId, j: nat): nat {
    if b == b0 && j > i then j - 1 else j
  }

  lemma PlaceOf(f: Body, id: Id) returns (b: BlockId, j: nat)
    requires WellFormed(f) && id in f.insts
    ensures Stands(f, id, b, j)
  {
    assert Placed(f, id);
    b :| 0 <= b < |f.layout| && id in f.layout[b];
    j :| 0 <= j < |f.layout[b]| && f.layout[b][j] == id;
  }

  lemma OnceOnlyAt(f: Body, at: Id, b: BlockId, i: nat)
    requires PlacedOnce(f) && Stands(f, at, b, i)
    ensures OnlyAt(f.layout[b], at, i) && forall c | 0 <= c < |f.layout| && c != b :: at !in f.layout[c]
  {
    var ids := f.layout[b];
    forall k | 0 <= k < |ids| && ids[k] == at ensures k == i { assert Stands(f, at, b, k); }
    forall c | 0 <= c < |f.layout| && c != b ensures at !in f.layout[c] {
      if k :| 0 <= k < |f.layout[c]| && f.layout[c][k] == at { assert Stands(f, at, c, k); }
    }
  }

  /** If every instruction has one place, a conversion puts the new one right before
      `at` and moves nothing to another block. */
  lemma ConvertedLayoutIs(f: Body, f': Body, at: Id, ce: Value, newId: Id, b: BlockId, i: nat)
    requires Converted(f, f', at, ce, newId) && PlacedOnce(f) && Stands(f, at, b, i)
    ensures |f'.layout| == |f.layout| && f'.layout[b] == f.layout[b][..i] + [newId] + f.layout[b][i..]
    ensures forall c | 0 <= c < |f.layout| && c != b :: f'.layout[c] == f.layout[c]
  {
    OnceOnlyAt(f, at, b, i);
    InsertedOnce(f.layout[b], at, newId, i);
    forall c | 0 <= c < |f.layout| && c != b ensures f'.layout[c] == f.layout[c] {
      NotInserted(f.layout[c], at, newId);
    }
  }

  /** Who stands where after a conversion. */
  lemma StandsBefore(f: Body, f': Body, at: Id, ce: Value, newId: Id, b0: BlockId, i: nat, id: Id, b: BlockId, j: nat)
    requires WellFormed(f) && Converted(f, f', at, ce, newId) && PlacedOnce(f) && Stands(f, at, b0, i)
    requires Stands(f', id, b, j)
    ensures if id == newId then b == b0 && j == i
            else Stands(f, id, b, Before(b0, i, b, j)) && !(b == b0 && j == i) && id in f.insts
  {
    hide Converted, WellFormed, PlacedOnce, IsPhi;
    ConvertedLayoutIs(f, f', at, ce, newId, b0, i);
    NewIsNew(f, f', at, ce, newId);
    var was := Before(b0, i, b, j);
    if b == b0 {
      var ids := f.layout[b];
      assert f'.layout[b][j] == if j < i then ids[j] else if j == i then newId else ids[j - 1];
    }
    if !(b == b0 && j == i) { InBody(f, b, was); }
  }

  lemma InBody(f: Body, b: BlockId, j: nat)
    requires WellFormed(f) && b < |f.layout| && j < |f.layout[b]|
    ensures f.layout[b][j] in f.insts
  {
    assert f.layout[b][j] in f.layout[b];
  }

  lemma NewIsNew(f: Body, f': Body, at: Id, ce: Value, newId: Id)
    requires Converted(f, f', at, ce, newId)
    ensures newId !in f.insts && at in f.insts && !IsPhi(f, at) && !IsPhi(f', newId)
    ensures forall id | id in f.insts :: IsPhi(f', id) <==> IsPhi(f, id)
  {
    forall id | id in f.insts ensures IsPhi(f', id) <==> IsPhi(f, id) {
      assert InstrConverted(f, id, f.insts[id], f'.insts[id], at, ce, newId);
    }
  }

  lemma ConversionArranged(f: Body, f': Body, at: Id, ce: Value, newId: Id)
    requires WellFormed(f) && Converted(f, f', at, ce, newId) && Arranged(f)
    ensures Arranged(f')
  {
    hide Converted, WellFormed, PlacedOnce, PhisFirst, Stands, IsPhi;
    NewIsNew(f, f', at, ce, newId);
    var b0, i := PlaceOf(f, at);
    StaysOnce(f, f', at, ce, newId, b0, i);
    StaysFirst(f, f', at, ce, newId, b0, i);
  }

  lemma StaysOnce(f: Body, f': Body, at: Id, ce: Value, newId: Id, b0: BlockId, i: nat)
    requires WellFormed(f) && Converted(f, f', at, ce, newId) && PlacedOnce(f) && Stands(f, at, b0, i)
    ensures PlacedOnce(f')
  {
    hide Converted, WellFormed, Stands;
    forall id, b, j, c, k | Stands(f', id, b, j) && Stands(f', id, c, k) ensures b == c && j == k {
      StandsBefore(f, f', at, ce, newId, b0, i, id, b, j);
      StandsBefore(f, f', at, ce, newId, b0, i, id, c, k);
    }
  }

  lemma StaysFirst(f: Body, f': Body, at: Id, ce: Value, newId: Id, b0: BlockId, i: nat)
    requires WellFormed(f) && Converted(f, f', at, ce, newId) && Arranged(f) && Stands(f, at, b0, i)
    ensures PhisFirst(f')
  {
    hide Converted, WellFormed, Stands, IsPhi, PlacedOnce;
    NewIsNew(f, f', at, ce, newId);
    forall b, x, j: nat, y, k: nat | Stands(f', x, b, j) && Stands(f', y, b, k) && j < k && IsPhi(f', y)
      ensures IsPhi(f', x)
    {
      StandsBefore(f, f', at, ce, newId, b0, i, x, b, j);
      StandsBefore(f, f', at, ce, newId, b0, i, y, b, k);
      if x == newId { NoPhiFrom(f, at, y, b, i, k - 1); }
    }
  }

  /** From an instruction that is no phi on, no phi stands in its block. */
  lemma NoPhiFrom(f: Body, x: Id, y: Id, b: BlockId, i: nat, k: nat)
    requires PhisFirst(f) && Stands(f, x, b, i) && Stands(f, y, b, k) && i <= k && !IsPhi(f, x)
    ensures !IsPhi(f, y)
  {
  }

  // ---------- the original instructions ----------

  /** Those of the list that are in `keep`, in order. */
  function Kept(ids: seq<Id>, keep: set<Id>): seq<Id> {
    if ids == [] then [] else (if ids[0] in keep then [ids[0]] else []) + Kept(ids[1..], keep)
  }

  /** Without the instructions that are new in `f'`, every block is what it was. */
  ghost predicate OrderKept(f: Body, f': Body) {
    |f'.layout| == |f.layout| && forall b | 0 <= b < |f.layout| :: Kept(f'.layout[b], f.insts.Keys) == f.layout[b]
  }

  lemma {:induction false} InsertKept(ids: seq<Id>, at: Id, newId: Id, keep: set<Id>)
    requires newId !in keep
    ensures Kept(InsertBefore(ids, at, newId), keep) == Kept(ids, keep)
  {
    if ids != [] {
      InsertKept(ids[1..], at, newId, keep);
      var rest := InsertBefore(ids[1..], at, newId);
      assert ([newId, ids[0]] + rest)[1..] == [ids[0]] + rest;
      assert [newId] + [ids[0]] + rest == [newId, ids[0]] + rest;
      assert ([ids[0]] + rest)[1..] == rest;
    }
  }

  lemma {:induction false} AllKept(ids: seq<Id>, keep: set<Id>)
    requires forall id | id in ids :: id in keep
    ensures Kept(ids, keep) == ids
  {
    if ids != [] { AllKept(ids[1..], keep); }
  }

  lemma {:induction false} ConvertsInPlaces(n: nat, f: Body, f': Body)
    requires ConvertsIn(n, f, f')
    ensures WellFormed(f') && f.insts.Keys <= f'.insts.Keys && OrderKept(f, f')
    ensures Arranged(f) ==> Arranged(f')
  {
    hide Arranged, WellFormed, Converted;
    if n == 0 {
      SelfKept(f);
    } else {
      var g :| ConvertsIn(n - 1, f, g) && Conversion(g, f');
      ConvertsInPlaces(n - 1, f, g);
      var at, ce, newId :| Converted(g, f', at, ce, newId);
      ConversionKept(f, g, f', at, ce, newId);
      if Arranged(g) { ConversionArranged(g, f', at, ce, newId); }
    }
  }

  lemma SelfKept(f: Body)
    requires WellFormed(f)
    ensures OrderKept(f, f)
  {
    forall b | 0 <= b < |f.layout| ensures Kept(f.layout[b], f.insts.Keys) == f.layout[b] {
      AllKept(f.layout[b], f.insts.Keys);
    }
  }

  lemma ConversionKept(f: Body, g: Body, f': Body, at: Id, ce: Value, newId: Id)
    requires OrderKept(f, g) && f.insts.Keys <= g.insts.Keys && Converted(g, f', at, ce, newId)
    ensures OrderKept(f, f') && f.insts.Keys <= f'.insts.Keys
  {
    forall b | 0 <= b < |f.layout| ensures Kept(f'.layout[b], f.insts.Keys) == f.layout[b] {
      InsertKept(g.layout[b], at, newId, f.insts.Keys);
    }
  }

  /** Whatever is converted: original instructions keep their blocks and their order,
      and a body that is arranged stays so. */
  lemma ConvertsPlaces(f: Body, f': Body)
    requires Converts(f, f')
    ensures OrderKept(f, f') && (Arranged(f) ==> Arranged(f'))
  {
    var n: nat :| ConvertsIn(n, f, f');
    ConvertsInPlaces(n, f, f');
  }

  // ---------- where the new instructions are used ----------

  /** Instruction `n` stands before index `k` of block `b`, and only instructions that
      `f` does not have stand in between. */
  ghost predicate RightBefore(f: Body, f': Body, n: Id, b: BlockId, k: nat) {
    && b < |f'.layout| && k < |f'.layout[b]|
    && exists j: nat :: j < k && Stands(f', n, b, j) && forall m | j < m < k :: f'.layout[b][m] !in f.insts
  }

  /** `u` is no phi and uses what `n` computes. */
  ghost predicate OpUses(f: Body, u: Id, n: Id) {
    u in f.insts && f.insts[u].Op? && Inst(n) in f.insts[u].operands
  }

  /** `u` is a phi that takes what `n` computes when control comes from `b`. */
  ghost predicate PhiUses(f: Body, u: Id, b: BlockId, n: Id) {
    u in f.insts && f.insts[u].Phi? && Incoming(b, Inst(n)) in f.insts[u].incoming
  }

  /** Every instruction that `f` does not have stands right before the instruction that
      uses it, or right before the end of the block from which a phi takes it. */
  ghost predicate NewWhereUsed(f: Body, f': Body) {
    && (forall u, n, b, k: nat | OpUses(f', u, n) && n !in f.insts && Stands(f', u, b, k) ::
        RightBefore(f, f', n, b, k))
    && (forall u: Id, n: Id, b: BlockId | PhiUses(f', u, b, n) && n !in f.insts ::
          b < |f'.layout| && f'.layout[b] != [] && RightBefore(f, f', n, b, |f'.layout[b]| - 1))
  }

  /** Where an instruction stands after one was inserted at `(b0, i)`. */
  function After(b0: BlockId, i: nat, b: BlockId, j: nat): nat {
    if b == b0 && j >= i then j + 1 else j
  }

  lemma StaysRightBefore(f: Body, g: Body, f': Body, at: Id, ce: Value, newId: Id, b0: BlockId, i: nat,
                         n: Id, b: BlockId, k: nat)
    requires f.insts.Keys <= g.insts.Keys && Converted(g, f', at, ce, newId) && PlacedOnce(g) && Stands(g, at, b0, i)
    requires RightBefore(f, g, n, b, k)
    ensures RightBefore(f, f', n, b, After(b0, i, b, k))
  {
    hide Converted, PlacedOnce;
    ConvertedLayoutIs(g, f', at, ce, newId, b0, i);
    NewIsNew(g, f', at, ce, newId);
    var j: nat :| j < k && Stands(g, n, b, j) && forall m | j < m < k :: g.layout[b][m] !in f.insts;
    var j', k' := After(b0, i, b, j), After(b0, i, b, k);
    assert Stands(f', n, b, j');
    forall m | j' < m < k' ensures f'.layout[b][m] !in f.insts {
      if b == b0 && m >= i {
        if m > i { assert f'.layout[b][m] == g.layout[b][m - 1]; }
      } else {
        assert f'.layout[b][m] == g.layout[b][m];
      }
    }
  }

  lemma NewUsesNothing(g: Body, f': Body, at: Id, ce: Value, newId: Id, n: Id)
    requires Converted(g, f', at, ce, newId)
    ensures !OpUses(f', newId, n)
  {
    forall k | 0 <= k < |ce.args| ensures ce.args[k] != Inst(n) { assert IsConstant(ce.args[k]); }
  }

  /** What an operand of `f'` was in `g`. */
  lemma OpUseBefore(g: Body, f': Body, at: Id, ce: Value, newId: Id, u: Id, n: Id)
    requires WellFormed(g) && Converted(g, f', at, ce, newId) && OpUses(f', u, n)
    ensures u != newId && (OpUses(g, u, n) || (u == at && n == newId))
  {
    var k :| 0 <= k < |f'.insts[u].operands| && f'.insts[u].operands[k] == Inst(n);
    NewUsesNothing(g, f', at, ce, newId, n);
    if u != newId {
      assert InstrConverted(g, u, g.insts[u], f'.insts[u], at, ce, newId);
      assert Replaced(g.insts[u].operands[k], Inst(n), ce, newId);
      assert g.insts[u].operands[k] in g.insts[u].operands;
    }
  }

  lemma PhiUseBefore(g: Body, f': Body, at: Id, ce: Value, newId: Id, u: Id, b: BlockId, n: Id)
    requires WellFormed(g) && Converted(g, f', at, ce, newId) && PhiUses(f', u, b, n)
    ensures PhiUses(g, u, b, n) || (EndsWith(g, b, at) && n == newId)
  {
    var k :| 0 <= k < |f'.insts[u].incoming| && f'.insts[u].incoming[k] == Incoming(b, Inst(n));
    if u != newId {
      assert InstrConverted(g, u, g.insts[u], f'.insts[u], at, ce, newId);
      assert Replaced(g.insts[u].incoming[k].value, Inst(n), ce, newId);
      assert g.insts[u].incoming[k] in g.insts[u].incoming;
    }
  }

  lemma StillWhereUsed(f: Body, g: Body, f': Body, at: Id, ce: Value, newId: Id, b0: BlockId, i: nat)
    requires f.insts.Keys <= g.insts.Keys && WellFormed(g) && Converted(g, f', at, ce, newId)
    requires PlacedOnce(g) && Stands(g, at, b0, i) && NewWhereUsed(f, g)
    ensures NewWhereUsed(f, f')
  {
    hide Converted, PlacedOnce, WellFormed, RightBefore, OpUses, PhiUses;
    ConvertedLayoutIs(g, f', at, ce, newId, b0, i);
    assert RightBefore(f, f', newId, b0, i + 1) by { NewRightBefore(f, f', newId, b0, i); }
    forall u, n, b, k: nat | OpUses(f', u, n) && n !in f.insts && Stands(f', u, b, k)
      ensures RightBefore(f, f', n, b, k)
    {
      OpUseBefore(g, f', at, ce, newId, u, n);
      StandsBefore(g, f', at, ce, newId, b0, i, u, b, k);
      if OpUses(g, u, n) {
        StaysRightBefore(f, g, f', at, ce, newId, b0, i, n, b, Before(b0, i, b, k));
      } else {
        OnlyPlace(g, at, b, Before(b0, i, b, k), b0, i);
      }
    }
    forall u: Id, n: Id, b: BlockId | PhiUses(f', u, b, n) && n !in f.insts
      ensures b < |f'.layout| && f'.layout[b] != [] && RightBefore(f, f', n, b, |f'.layout[b]| - 1)
    {
      PhiUseBefore(g, f', at, ce, newId, u, b, n);
      if PhiUses(g, u, b, n) {
        StaysRightBefore(f, g, f', at, ce, newId, b0, i, n, b, |g.layout[b]| - 1);
      } else {
        OnlyPlace(g, at, b, |g.layout[b]| - 1, b0, i);
      }
    }
  }

  lemma OnlyPlace(f: Body, id: Id, b: BlockId, j: nat, c: BlockId, k: nat)
    requires PlacedOnce(f) && Stands(f, id, b, j) && Stands(f, id, c, k)
    ensures b == c && j == k
  {
  }

  lemma NewRightBefore(f: Body, f': Body, newId: Id, b: BlockId, i: nat)
    requires Stands(f', newId, b, i) && i + 1 < |f'.layout[b]|
    ensures RightBefore(f, f', newId, b, i + 1)
  {
  }

  lemma NothingNew(f: Body)
    requires WellFormed(f)
    ensures NewWhereUsed(f, f)
  {
    forall u, n | OpUses(f, u, n) ensures n in f.insts {
      assert WellFormedInstr(f, f.insts[u]) && WellFormedOperand(f, Inst(n));
    }
    forall u: Id, n: Id, b: BlockId | PhiUses(f, u, b, n) ensures n in f.insts {
      var k :| 0 <= k < |f.insts[u].incoming| && f.insts[u].incoming[k] == Incoming(b, Inst(n));
      assert WellFormedInstr(f, f.insts[u]) && Operands(f.insts[u])[k] == Inst(n);
      assert Inst(n) in Operands(f.insts[u]);
      assert WellFormedOperand(f, Inst(n));
    }
  }

  lemma {:induction false} ConvertsInWhereUsed(n: nat, f: Body, f': Body)
    requires ConvertsIn(n, f, f') && Arranged(f)
    ensures WellFormed(f') && f.insts.Keys <= f'.insts.Keys && Arranged(f') && NewWhereUsed(f, f')
  {
    hide WellFormed, Converted, NewWhereUsed, PlacedOnce, PhisFirst, Stands;
    if n == 0 {
      NothingNew(f);
    } else {
      var g :| ConvertsIn(n - 1, f, g) && Conversion(g, f');
      ConvertsInWhereUsed(n - 1, f, g);
      var at, ce, newId :| Converted(g, f', at, ce, newId);
      NewIsNew(g, f', at, ce, newId);
      ConvertedIds(g, f', at, ce, newId);
      var b, i := PlaceOf(g, at);
      StillWhereUsed(f, g, f', at, ce, newId, b, i);
      ConversionArranged(g, f', at, ce, newId);
    }
  }

  /** In a body that was arranged the new instructions stand where they are used. */
  lemma ConvertsWhereUsed(f: Body, f': Body)
    requires Converts(f, f') && Arranged(f)
    ensures NewWhereUsed(f, f')
  {
    var n: nat :| ConvertsIn(n, f, f');
    ConvertsInWhereUsed(n, f, f');
  }
}
