/** The flattened layout that is recorded for every type: which slot of the
    flattened object each leaf of a nested struct or array takes. */
module TypeLayout {
  const U32 := 0x1_0000_0000
  const U64 := 0x1_0000_0000_0000_0000

  type u64 = x: nat | x < 0x1_0000_0000_0000_0000

  /** Everything that is neither a struct nor an array is a scalar. */
  datatype Type =
    | Scalar(name: nat)
    | Struct(fields: seq<Type>)
    | Array(count: u64, elem: Type)

  // ---------- what is recorded ----------

  /** What is left of a nested array type once all its dimensions are removed. */
  function Base(t: Type): (r: Type)
    ensures !r.Array? && (r == t || r < t)
  {
    if t.Array? then Base(t.elem) else t
  }

  /** The product of all dimensions, as an unbounded number. */
  function Total(t: Type): nat {
    if t.Array? then t.count * Total(t.elem) else 1
  }

  function Repeat<T>(n: nat, s: seq<T>): (r: seq<T>)
    ensures |r| == n * |s|
  {
    if n == 0 then [] else Repeat(n - 1, s) + s
  }

  /** One entry per slot: the types of the flattened elements, in order. An array
      without elements stands for one dummy element. */
  function Flat(t: Type): seq<Type>
    decreases t, 0
  {
    match t
    case Scalar(_) => [t]
    case Struct(fs) => FlatAll(fs)
    case Array(_, _) => if Total(t) == 0 then [Base(t)] else Repeat(Total(t), Flat(Base(t)))
  }

  function FlatAll(fs: seq<Type>): seq<Type>
    decreases fs, 1
  {
    if fs == [] then [] else FlatAll(fs[..|fs| - 1]) + Flat(fs[|fs| - 1])
  }

  /** `t` with one element left of every array that has any. */
  function Collapse(t: Type): Type {
    match t
    case Scalar(_) => t
    case Struct(fs) => Struct(seq(|fs|, k requires 0 <= k < |fs| => Collapse(fs[k])))
    case Array(_, e) => if Total(t) == 0 then Array(0, Base(t)) else Array(1, Collapse(e))
  }

  /** One entry per field: the flattened elements when arrays are ignored. */
  function FlatFields(t: Type): seq<Type> {
    Flat(Collapse(t))
  }

  /** The slot at which each part of `t` starts: part `i` of an array starts after
      `i` elements, part `k` of a struct after the fields before it. */
  function ElemIdx(t: Type): seq<nat> {
    match t
    case Scalar(_) => [0]
    case Struct(fs) => seq(|fs|, k requires 0 <= k < |fs| => |FlatAll(fs[..k])|)
    case Array(n, e) => if Total(t) == 0 then [0] else seq(n, i requires 0 <= i < n => i * |Flat(e)|)
  }

  function FieldIdx(t: Type): seq<nat> {
    match t
    case Scalar(_) => [0]
    case Struct(fs) => seq(|fs|, k requires 0 <= k < |fs| => |FlatFields(Struct(fs[..k]))|)
    case Array(n, _) => if Total(t) == 0 then [0] else seq(n, i requires 0 <= i < n => 0)
  }

  // ---------- leaves ----------

  /** `p` leads from `t` to a scalar, one field or element number per level. */
  predicate IsLeaf(t: Type, p: seq<nat>)
    decreases p
  {
    match t
    case Scalar(_) => p == []
    case Struct(fs) => p != [] && p[0] < |fs| && IsLeaf(fs[p[0]], p[1..])
    case Array(n, e) => p != [] && p[0] < n && IsLeaf(e, p[1..])
  }

  function Part(t: Type, i: nat): Type
    requires !t.Scalar? && (t.Struct? ==> i < |t.fields|)
  {
    if t.Struct? then t.fields[i] else t.elem
  }

  function LeafType(t: Type, p: seq<nat>): Type
    requires IsLeaf(t, p)
  {
    if p == [] then t else LeafType(Part(t, p[0]), p[1..])
  }

  lemma {:induction false} LeafNeedsElements(t: Type, p: seq<nat>)
    requires IsLeaf(t, p)
    ensures Total(t) > 0
  {
    if t.Array? { LeafNeedsElements(t.elem, p[1..]); }
  }

  /** The slot of a leaf: the recorded indices along the way, added up. */
  function Offset(t: Type, p: seq<nat>): nat
    requires IsLeaf(t, p)
    decreases p
  {
    if p == [] then 0
    else
      LeafNeedsElements(t, p);
      ElemIdx(t)[p[0]] + Offset(Part(t, p[0]), p[1..])
  }

  /** `p` comes before `q` in the order in which fields and elements are declared. */
  predicate Before(p: seq<nat>, q: seq<nat>) {
    p != [] && q != [] && (p[0] < q[0] || (p[0] == q[0] && Before(p[1..], q[1..])))
  }

  lemma {:induction false} LeavesAreOrdered(t: Type, p: seq<nat>, q: seq<nat>)
    requires IsLeaf(t, p) && IsLeaf(t, q) && p != q
    ensures Before(p, q) || Before(q, p)
  {
    if p != [] && p[0] == q[0] {
      assert p == [p[0]] + p[1..] && q == [q[0]] + q[1..];
      LeavesAreOrdered(Part(t, p[0]), p[1..], q[1..]);
    }
  }

  // ---------- lists ----------

  lemma {:induction false} RepeatAt<T>(n: nat, s: seq<T>, i: nat, j: nat)
    requires i < n && j < |s|
    ensures i * |s| + j < n * |s| && Repeat(n, s)[i * |s| + j] == s[j]
  {
    if i < n - 1 {
      RepeatAt(n - 1, s, i, j);
    } else {
      assert Repeat(n, s) == Repeat(n - 1, s) + s;
    }
  }

  lemma {:induction false} RepeatSum<T>(a: nat, b: nat, s: seq<T>)
    ensures Repeat(a + b, s) == Repeat(a, s) + Repeat(b, s)
  {
    if b != 0 {
      RepeatSum(a, b - 1, s);
      assert Repeat(a + b, s) == Repeat(a + (b - 1), s) + s;
    }
  }

  lemma {:induction false} RepeatTwice<T>(n: nat, k: nat, s: seq<T>)
    ensures Repeat(n * k, s) == Repeat(n, Repeat(k, s))
  {
    if n != 0 {
      RepeatTwice(n - 1, k, s);
      RepeatSum((n - 1) * k, k, s);
      assert n * k == (n - 1) * k + k;
    }
  }

  /** An array is its elements one after the other, however many dimensions the
      element type has itself. */
  lemma FlatOfArray(t: Type)
    requires t.Array? && Total(t) > 0
    ensures Total(t.elem) > 0 && Flat(t) == Repeat(t.count, Flat(t.elem))
  {
    var e := t.elem;
    assert Total(t) == t.count * Total(e) && Base(t) == Base(e);
    if e.Array? {
      RepeatTwice(t.count, Total(e), Flat(Base(e)));
      assert Flat(e) == Repeat(Total(e), Flat(Base(e)));
    } else {
      assert Total(t) == t.count;
    }
  }

  lemma {:induction false} FlatAllSplit(fs: seq<Type>, k: nat)
    requires k < |fs|
    ensures |FlatAll(fs[..k])| + |Flat(fs[k])| == |FlatAll(fs[..k + 1])| <= |FlatAll(fs)|
    ensures FlatAll(fs)[|FlatAll(fs[..k])|..|FlatAll(fs[..k + 1])|] == Flat(fs[k])
  {
    assert fs[..k + 1][..k] == fs[..k];
    if k + 1 < |fs| {
      var init := fs[..|fs| - 1];
      assert init[..k] == fs[..k] && init[..k + 1] == fs[..k + 1] && init[k] == fs[k];
      FlatAllSplit(init, k);
    } else {
      assert fs[..k + 1] == fs;
    }
  }

  function Parts(t: Type): nat
    requires !t.Scalar?
  {
    if t.Struct? then |t.fields| else t.count
  }

  /** Where part `i` starts; after the last part the object ends. */
  ghost function Start(t: Type, i: nat): nat
    requires !t.Scalar? && i <= Parts(t)
  {
    if t.Struct? then |FlatAll(t.fields[..i])| else i * |Flat(t.elem)|
  }

  lemma StartIsRecorded(t: Type, i: nat)
    requires !t.Scalar? && Total(t) > 0 && i < Parts(t)
    ensures |ElemIdx(t)| == Parts(t) && ElemIdx(t)[i] == Start(t, i)
  {
  }

  lemma StartOfNext(t: Type, i: nat)
    requires !t.Scalar? && i < Parts(t)
    ensures Start(t, i + 1) == Start(t, i) + |Flat(Part(t, i))|
  {
    if t.Struct? {
      FlatAllSplit(t.fields, i);
    } else {
      assert (i + 1) * |Flat(t.elem)| == i * |Flat(t.elem)| + |Flat(t.elem)|;
    }
  }

  lemma EndOfLast(t: Type)
    requires !t.Scalar? && Total(t) > 0
    ensures Start(t, Parts(t)) == |Flat(t)|
  {
    if t.Struct? {
      assert t.fields[..|t.fields|] == t.fields;
    } else {
      FlatOfArray(t);
    }
  }

  lemma {:induction false} StartsInOrder(t: Type, i: nat, j: nat)
    requires !t.Scalar? && i <= j <= Parts(t)
    ensures Start(t, i) <= Start(t, j)
  {
    if i < j {
      StartsInOrder(t, i, j - 1);
      StartOfNext(t, j - 1);
    }
  }

  /** The slots of part `i` hold what that part is flattened to. */
  lemma PartSlots(t: Type, i: nat)
    requires !t.Scalar? && Total(t) > 0 && i < Parts(t)
    ensures Start(t, i) + |Flat(Part(t, i))| <= |Flat(t)|
    ensures forall j {:trigger Flat(Part(t, i))[j]} :: 0 <= j < |Flat(Part(t, i))| ==>
              Flat(t)[Start(t, i) + j] == Flat(Part(t, i))[j]
  {
    StartOfNext(t, i);
    StartsInOrder(t, i + 1, Parts(t));
    EndOfLast(t);
    if t.Struct? {
      StructSlots(t.fields, i);
    } else {
      FlatOfArray(t);
      var s := Flat(t.elem);
      forall j | 0 <= j < |s| ensures Flat(t)[i * |s| + j] == s[j] { RepeatAt(t.count, s, i, j); }
    }
  }

  lemma StructSlots(fs: seq<Type>, i: nat)
    requires i < |fs|
    ensures |FlatAll(fs[..i])| + |Flat(fs[i])| <= |FlatAll(fs)|
    ensures forall j {:trigger Flat(fs[i])[j]} :: 0 <= j < |Flat(fs[i])| ==>
              FlatAll(fs)[|FlatAll(fs[..i])| + j] == Flat(fs[i])[j]
  {
    hide Flat, FlatAll;
    FlatAllSplit(fs, i);
    var lo, hi := |FlatAll(fs[..i])|, |FlatAll(fs[..i + 1])|;
    forall j | 0 <= j < hi - lo ensures FlatAll(fs)[lo + j] == Flat(fs[i])[j] {
      assert FlatAll(fs)[lo..hi][j] == Flat(fs[i])[j];
    }
  }

  // ---------- leaves and slots correspond ----------

  /** The slot of a leaf lies within the object and is recorded with its type. */
  lemma {:induction false} LeafHasItsType(t: Type, p: seq<nat>)
    requires IsLeaf(t, p)
    ensures Offset(t, p) < |Flat(t)| && Flat(t)[Offset(t, p)] == LeafType(t, p)
    decreases p
  {
    hide Start, ElemIdx, FlatAll;
    if p != [] {
      LeafNeedsElements(t, p);
      LeafHasItsType(Part(t, p[0]), p[1..]);
      StartIsRecorded(t, p[0]);
      PartSlots(t, p[0]);
    }
  }

  /** The slots keep the order of declaration. */
  lemma {:induction false} SlotsKeepOrder(t: Type, p: seq<nat>, q: seq<nat>)
    requires IsLeaf(t, p) && IsLeaf(t, q) && Before(p, q)
    ensures Offset(t, p) < Offset(t, q)
    decreases p
  {
    hide Start, ElemIdx, Flat;
    LeafNeedsElements(t, p);
    if p[0] == q[0] {
      SlotsKeepOrder(Part(t, p[0]), p[1..], q[1..]);
    } else {
      LeafHasItsType(Part(t, p[0]), p[1..]);
      StartIsRecorded(t, p[0]);
      StartIsRecorded(t, q[0]);
      StartOfNext(t, p[0]);
      StartsInOrder(t, p[0] + 1, q[0]);
    }
  }

  lemma NoTwoLeavesShareASlot(t: Type, p: seq<nat>, q: seq<nat>)
    requires IsLeaf(t, p) && IsLeaf(t, q) && Offset(t, p) == Offset(t, q)
    ensures p == q
  {
    if p != q {
      LeavesAreOrdered(t, p, q);
      if Before(p, q) { SlotsKeepOrder(t, p, q); } else { SlotsKeepOrder(t, q, p); }
    }
  }

  /** No array of length zero anywhere in `t`. */
  predicate NoEmptyArray(t: Type) {
    match t
    case Scalar(_) => true
    case Struct(fs) => forall k | 0 <= k < |fs| :: NoEmptyArray(fs[k])
    case Array(n, e) => n > 0 && NoEmptyArray(e)
  }

  lemma {:induction false} NoEmptyArrayTotal(t: Type)
    requires NoEmptyArray(t)
    ensures Total(t) > 0
  {
    if t.Array? { NoEmptyArrayTotal(t.elem); }
  }

  ghost predicate Reached(t: Type, slot: nat) {
    exists p :: IsLeaf(t, p) && Offset(t, p) == slot
  }

  /** The part of `t` that holds a slot. */
  lemma {:induction false} PartOfSlot(t: Type, slot: nat, bound: nat) returns (i: nat)
    requires !t.Scalar? && bound <= Parts(t) && slot < Start(t, bound)
    ensures i < bound && Start(t, i) <= slot < Start(t, i) + |Flat(Part(t, i))|
  {
    hide Start, Flat;
    if bound == 0 {
      StartOfFirst(t);
    } else {
      StartOfNext(t, bound - 1);
      if Start(t, bound - 1) <= slot {
        i := bound - 1;
      } else {
        i := PartOfSlot(t, slot, bound - 1);
      }
    }
  }

  lemma StartOfFirst(t: Type)
    requires !t.Scalar?
    ensures Start(t, 0) == 0
  {
  }

  /** Below part `i` the slots of `t` are those of the part, shifted. */
  lemma ReachedInPart(t: Type, i: nat, slot: nat)
    requires !t.Scalar? && Total(t) > 0 && i < Parts(t) && slot < |Flat(Part(t, i))|
    ensures Reached(t, Start(t, i) + slot) <==> Reached(Part(t, i), slot)
  {
    hide Start, Flat, ElemIdx;
    var part := Part(t, i);
    StartIsRecorded(t, i);
    if Reached(part, slot) {
      var q :| IsLeaf(part, q) && Offset(part, q) == slot;
      var p := [i] + q;
      assert p[1..] == q;
      assert IsLeaf(t, p) && Offset(t, p) == Start(t, i) + slot;
    }
    if Reached(t, Start(t, i) + slot) {
      var p :| IsLeaf(t, p) && Offset(t, p) == Start(t, i) + slot;
      var k := p[0];
      LeafHasItsType(Part(t, k), p[1..]);
      StartIsRecorded(t, k);
      if k < i {
        StartOfNext(t, k);
        StartsInOrder(t, k + 1, i);
      } else if k > i {
        StartOfNext(t, i);
        StartsInOrder(t, i + 1, k);
      }
      assert IsLeaf(part, p[1..]) && Offset(part, p[1..]) == slot;
    }
  }

  lemma {:induction false} EverySlotReached(t: Type, slot: nat)
    requires NoEmptyArray(t) && slot < |Flat(t)|
    ensures Reached(t, slot)
  {
    hide Start, Flat, ElemIdx;
    if t.Scalar? {
      ScalarSlot(t, slot);
    } else {
      NoEmptyArrayTotal(t);
      EndOfLast(t);
      var i := PartOfSlot(t, slot, Parts(t));
      EverySlotReached(Part(t, i), slot - Start(t, i));
      ReachedInPart(t, i, slot - Start(t, i));
    }
  }

  lemma ScalarSlot(t: Type, slot: nat)
    requires t.Scalar? && slot < |Flat(t)|
    ensures Reached(t, slot)
  {
    assert IsLeaf(t, []) && Offset(t, []) == slot;
  }

  /** The dummy of an empty array is a slot that no leaf takes. */
  lemma {:induction false} SomeSlotUnreached(t: Type) returns (slot: nat)
    requires !NoEmptyArray(t)
    ensures slot < |Flat(t)| && !Reached(t, slot)
  {
    hide Start, ElemIdx;
    if Total(t) == 0 {
      slot := 0;
      forall p | IsLeaf(t, p) ensures false { LeafNeedsElements(t, p); }
    } else {
      var i: nat := 0;
      if t.Struct? { i :| 0 <= i < |t.fields| && !NoEmptyArray(t.fields[i]); }
      var below := SomeSlotUnreached(Part(t, i));
      ReachedInPart(t, i, below);
      PartSlots(t, i);
      slot := Start(t, i) + below;
    }
  }

  /** The leaves take all slots, one each, exactly when no array is empty. */
  lemma LeavesFillSlotsIff(t: Type)
    ensures NoEmptyArray(t) <==> forall slot: nat :: slot < |Flat(t)| ==> Reached(t, slot)
    ensures forall p, q :: IsLeaf(t, p) && IsLeaf(t, q) && Offset(t, p) == Offset(t, q) ==> p == q
  {
    hide Flat, Offset;
    if NoEmptyArray(t) {
      forall slot: nat | slot < |Flat(t)| ensures Reached(t, slot) { EverySlotReached(t, slot); }
    } else {
      var slot := SomeSlotUnreached(t);
    }
    forall p, q | IsLeaf(t, p) && IsLeaf(t, q) && Offset(t, p) == Offset(t, q) ensures p == q {
      NoTwoLeavesShareASlot(t, p, q);
    }
  }

  // ---------- ignoring arrays ----------

  /** The field of a leaf: the recorded field indices along the way, added up. */
  function FieldSlot(t: Type, p: seq<nat>): nat
    requires IsLeaf(t, p)
    decreases p
  {
    if p == [] then 0
    else
      LeafNeedsElements(t, p);
      FieldIdx(t)[p[0]] + FieldSlot(Part(t, p[0]), p[1..])
  }

  /** The fields chosen along `p`, whatever the elements. */
  function FieldsOf(t: Type, p: seq<nat>): seq<nat>
    requires IsLeaf(t, p)
    decreases p
  {
    if p == [] then [] else [if t.Struct? then p[0] else 0] + FieldsOf(Part(t, p[0]), p[1..])
  }

  lemma CollapsePart(t: Type, i: nat)
    requires !t.Scalar? && Total(t) > 0 && i < Parts(t)
    ensures var c := Collapse(t); var k := if t.Struct? then i else 0;
            !c.Scalar? && Total(c) > 0 && k < Parts(c) && Part(c, k) == Collapse(Part(t, i))
    ensures i < |FieldIdx(t)| && FieldIdx(t)[i] == Start(Collapse(t), if t.Struct? then i else 0)
  {
    hide Flat;
    if t.Struct? {
      CollapsePrefix(t.fields, i);
      assert Collapse(t).fields[i] == Collapse(t.fields[i]);
    } else {
      CollapseTotal(t.elem);
      assert Start(Collapse(t), 0) == 0;
    }
  }

  lemma CollapsePrefix(fs: seq<Type>, k: nat)
    requires k <= |fs|
    ensures FlatFields(Struct(fs[..k])) == FlatAll(Collapse(Struct(fs)).fields[..k])
  {
    assert Collapse(Struct(fs)).fields[..k] == Collapse(Struct(fs[..k])).fields;
  }

  lemma {:induction false} CollapseTotal(t: Type)
    ensures Total(Collapse(t)) > 0 <==> Total(t) > 0
  {
    if t.Array? && Total(t) > 0 { CollapseTotal(t.elem); }
  }

  lemma {:induction false} FieldSlotIsOffset(t: Type, p: seq<nat>)
    requires IsLeaf(t, p)
    ensures IsLeaf(Collapse(t), FieldsOf(t, p))
    ensures FieldSlot(t, p) == Offset(Collapse(t), FieldsOf(t, p))
    ensures LeafType(Collapse(t), FieldsOf(t, p)) == LeafType(t, p)
    decreases p
  {
    if p != [] {
      LeafNeedsElements(t, p);
      CollapsePart(t, p[0]);
      FieldSlotIsOffset(Part(t, p[0]), p[1..]);
      assert FieldsOf(t, p)[1..] == FieldsOf(Part(t, p[0]), p[1..]);
      StartIsRecorded(Collapse(t), FieldsOf(t, p)[0]);
    }
  }

  /** With arrays ignored, two leaves fall together exactly when they differ in
      array positions only, and the entry they share has their type. */
  lemma FieldSharedIff(t: Type, p: seq<nat>, q: seq<nat>)
    requires IsLeaf(t, p) && IsLeaf(t, q)
    ensures FieldSlot(t, p) == FieldSlot(t, q) <==> FieldsOf(t, p) == FieldsOf(t, q)
    ensures FieldSlot(t, p) < |FlatFields(t)| && FlatFields(t)[FieldSlot(t, p)] == LeafType(t, p)
  {
    hide Flat, Collapse, Offset;
    FieldSlotIsOffset(t, p);
    FieldSlotIsOffset(t, q);
    LeafHasItsType(Collapse(t), FieldsOf(t, p));
    if FieldSlot(t, p) == FieldSlot(t, q) {
      NoTwoLeavesShareASlot(Collapse(t), FieldsOf(t, p), FieldsOf(t, q));
    }
  }

  // ---------- 32-bit arithmetic ----------

  /** What the recorded 32-bit numbers can hold: for every array met on the way,
      the number of elements and the number of slots. */
  ghost predicate Fits(t: Type)
    decreases t
  {
    match t
    case Scalar(_) => true
    case Struct(fs) => |Flat(t)| < U32 && forall k | 0 <= k < |fs| :: Fits(fs[k])
    case Array(_, _) => Total(t) > 0 ==> Total(t) < U32 && |Flat(t)| < U32 && Fits(Base(t))
  }

  /** The index recorded for element `i` of an array, computed as the code does: a
      32-bit product, a 64-bit product, a division, and a truncation. */
  function ElementIndex(i: nat, nfE: nat, total: nat, outer: nat): nat
    requires outer > 0
  {
    Scaled((i * nfE) % U32, total, outer)
  }

  function Scaled(a: nat, total: nat, outer: nat): nat
    requires outer > 0
  {
    (a * total) % U64 / outer % U32
  }

  /** The recorded indices of an array are right exactly if the start of its last
      element fits in 32 bits, however large its count and its products are. */
  lemma ElementIndexExactIff(nfE: nat, inner: nat, outer: nat)
    requires 0 < outer < U32 && 0 < inner
    ensures (forall i: nat | i < outer :: ElementIndex(i, nfE, outer * inner, outer) == i * (nfE * inner))
            <==> (outer - 1) * (nfE * inner) < U32
  {
    if (outer - 1) * (nfE * inner) < U32 {
      forall i: nat | i < outer ensures ElementIndex(i, nfE, outer * inner, outer) == i * (nfE * inner) {
        StartFits(i, nfE, inner, outer);
      }
    } else {
      IndexIs32Bits(outer - 1, nfE, outer * inner, outer);
    }
  }

  lemma IndexIs32Bits(i: nat, nfE: nat, total: nat, outer: nat)
    requires outer > 0
    ensures ElementIndex(i, nfE, total, outer) < U32
  {
  }

  lemma StartFits(i: nat, nfE: nat, inner: nat, outer: nat)
    requires i < outer < U32 && 0 < inner && (outer - 1) * (nfE * inner) < U32
    ensures ElementIndex(i, nfE, outer * inner, outer) == i * (nfE * inner)
  {
    hide ElementIndex;
    var q := i * (nfE * inner);
    ProductMonotone(i, outer - 1, nfE * inner);
    Regroup(i, nfE, inner, outer);
    ProductAtLeast(i * nfE, inner);
    ProductBelow(q, outer);
    IndexWithoutWrap(i, nfE, outer * inner, outer, q);
  }

  lemma Regroup(a: nat, b: nat, c: nat, d: nat)
    ensures a * (b * c) == (a * b) * c && (a * b) * (d * c) == (a * (b * c)) * d
  {
  }

  lemma IndexWithoutWrap(i: nat, nfE: nat, total: nat, outer: nat, q: nat)
    requires outer > 0 && i * nfE < U32 && (i * nfE) * total == q * outer < U64 && q < U32
    ensures ElementIndex(i, nfE, total, outer) == q
  {
    hide Scaled;
    WrapDivide(i * nfE, total, outer, q);
    assert (i * nfE) % U32 == i * nfE;
  }

  /** In particular if the array's slots fit in 32 bits. */
  lemma ElementIndexExact(i: nat, nfE: nat, inner: nat, outer: nat)
    requires i < outer && nfE * (outer * inner) < U32
    ensures ElementIndex(i, nfE, outer * inner, outer) == i * (nfE * inner)
  {
    hide Scaled;
    if nfE == 0 || inner == 0 {
      assert i * (nfE * inner) == 0;
      assert ((i * nfE) % U32) * (outer * inner) == 0;
      WrapDivide((i * nfE) % U32, outer * inner, outer, 0);
    } else {
      SlotsBound(nfE, inner, outer);
      StartFits(i, nfE, inner, outer);
    }
  }

  lemma SlotsBound(nfE: nat, inner: nat, outer: nat)
    requires 0 < nfE && 0 < inner && 0 < outer && nfE * (outer * inner) < U32
    ensures outer < U32 && (outer - 1) * (nfE * inner) < U32
  {
    ProductAtLeast(outer, inner);
    ProductAtLeast(outer * inner, nfE);
    ProductMonotone(outer - 1, outer, nfE * inner);
    assert outer * (nfE * inner) == nfE * (outer * inner);
  }

  lemma WrapDivide(a: nat, total: nat, outer: nat, q: nat)
    requires outer > 0 && a * total == q * outer < U64 && q < U32
    ensures Scaled(a, total, outer) == q
  {
    DivideExact(q, outer);
  }

  lemma ProductAtLeast(a: nat, b: nat)
    requires b > 0
    ensures a <= a * b
  {
  }

  lemma ProductMonotone(a: nat, b: nat, c: nat)
    requires a <= b
    ensures a * c <= b * c == c * b
  {
  }

  lemma ProductBelow(a: nat, b: nat)
    requires a < U32 && b < U32
    ensures a * b < U64
  {
    ProductMonotone(a, U32, b);
    ProductMonotone(b, U32, U32);
  }

  lemma ProductGap(a: nat, b: nat, c: nat)
    ensures a < b ==> a * c + c <= b * c
  {
    if a < b { ProductMonotone(a + 1, b, c); }
  }

  lemma DivideExact(q: nat, d: nat)
    requires d > 0
    ensures (q * d) / d == q
  {
    var r := (q * d) / d;
    ProductGap(q, r, d);
    ProductGap(r, q, d);
  }

  /** Beyond that the products wrap: with an array of two times 2^30 structs that
      hold four numbers each, the second half would start at slot 2^32 and is
      recorded at slot 0. */
  lemma WideArrayCollapses()
    ensures var t := Array(2, Array(0x4000_0000, Struct([Array(4, Scalar(0))])));
      && Total(t) < U32 && (2 - 1) * (|Flat(Base(t))| * Total(t.elem)) == U32
      && ElementIndex(1, |Flat(Base(t))|, Total(t), 2) == 0
  {
    hide Flat;
    FourSlots();
    assert Total(Array(0x4000_0000, Struct([Array(4, Scalar(0))]))) == 0x4000_0000;
  }

  /** The loops over all elements count in 32 bits and compare with a 64-bit bound:
      they end exactly if the bound fits. */
  lemma CountingEndsIff(total: nat)
    ensures (exists i: nat :: !(i % U32 < total)) <==> total < U32
  {
    if total < U32 {
      assert !(total % U32 < total);
    }
  }

  /** So the number of slots alone does not decide: 2^32 empty structs have none. */
  lemma EmptyStructsNeverEnd()
    ensures var t := Array(0x1_0000_0000, Struct([]));
      |Flat(t)| < U32 && !exists i: nat :: !(i % U32 < Total(t))
  {
    var t := Array(0x1_0000_0000, Struct([]));
    assert Total(t) == U32 && Flat(Base(t)) == [];
    CountingEndsIff(Total(t));
  }

  lemma FourSlots()
    ensures |Flat(Struct([Array(4, Scalar(0))]))| == 4
  {
  }
}
