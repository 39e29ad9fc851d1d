/** Collecting the layout of every type into the table of the module: what is
    recorded, with 32- and 64-bit arithmetic as in the code, and when it is right. */
module TypeCollector {
  import opened TypeLayout
  import opened Options

  // ---------- small facts about the lists to be recorded ----------

  lemma {:induction false} FieldsAtMostSlots(t: Type)
    ensures |FlatFields(t)| <= |Flat(t)|
  {
    match t
    case Scalar(_) =>
    case Struct(fs) => FieldsAtMostSlotsAll(fs);
    case Array(_, e) =>
      if Total(t) > 0 {
        FieldsOfBase(t);
        FieldsAtMostSlots(Base(t));
        ProductAtLeast(|Flat(Base(t))|, Total(t));
      }
  }

  lemma {:induction false} FieldsAtMostSlotsAll(fs: seq<Type>)
    ensures |FlatFields(Struct(fs))| <= |FlatAll(fs)|
  {
    if fs == [] {
      assert Collapse(Struct(fs)).fields == [];
    } else {
      var k := |fs| - 1;
      FieldsOfPrefix(fs, k);
      SlotsOfPrefix(fs, k);
      assert fs[..k + 1] == fs;
      FieldsAtMostSlotsAll(fs[..k]);
      FieldsAtMostSlots(fs[k]);
    }
  }

  lemma {:induction false} FieldsOfBase(t: Type)
    requires t.Array? && Total(t) > 0
    ensures FlatFields(t) == FlatFields(Base(t))
  {
    CollapseTotal(t);
    FlatOfArray(Collapse(t));
    assert Repeat(1, FlatFields(t.elem)) == FlatFields(t.elem);
    if t.elem.Array? { FieldsOfBase(t.elem); }
  }

  lemma FieldsOfPrefix(fs: seq<Type>, k: nat)
    requires k < |fs|
    ensures FlatFields(Struct(fs[..k + 1])) == FlatFields(Struct(fs[..k])) + FlatFields(fs[k])
  {
    var c := Collapse(Struct(fs[..k + 1])).fields;
    assert c[..k] == Collapse(Struct(fs[..k])).fields && c[k] == Collapse(fs[k]);
    assert c == c[..k + 1];
    SlotsOfPrefix(c, k);
  }

  lemma SlotsOfPrefix(fs: seq<Type>, k: nat)
    requires k < |fs|
    ensures FlatAll(fs[..k + 1]) == FlatAll(fs[..k]) + Flat(fs[k])
  {
    assert fs[..k + 1][..k] == fs[..k];
  }

  /** `m` gives every recorded index the type recorded for it last. */
  ghost predicate LastTypes(m: map<nat, Type>, idx: seq<nat>, tys: seq<Type>) {
    && |idx| == |tys|
    && (forall x :: x in m ==> x in idx)
    && (forall x :: x in idx ==> x in m)
    && forall k | 0 <= k < |idx| && idx[k] !in idx[k + 1..] :: m[idx[k]] == tys[k]
  }

  lemma LastTypesGrow(m: map<nat, Type>, idx: seq<nat>, tys: seq<Type>, x: nat, t: Type)
    requires LastTypes(m, idx, tys)
    ensures LastTypes(m[x := t], idx + [x], tys + [t])
  {
    var idx', tys', m' := idx + [x], tys + [t], m[x := t];
    forall y | y in m' ensures y in idx' {}
    forall y | y in idx' ensures y in m' {}
    forall k | 0 <= k < |idx'| && idx'[k] !in idx'[k + 1..] ensures m'[idx'[k]] == tys'[k] {
      if k < |idx| { NotLater(idx, x, k); }
    }
  }

  lemma NotLater(idx: seq<nat>, x: nat, k: nat)
    requires k < |idx| && (idx + [x])[k] !in (idx + [x])[k + 1..]
    ensures idx[k] != x && idx[k] !in idx[k + 1..]
  {
    assert (idx + [x])[k + 1..] == idx[k + 1..] + [x];
  }

  // ---------- what is recorded ----------

  /** The contents of a type's record. */
  datatype Record = Record(
    stride: nat,
    elemIdx: seq<nat>,
    elems: seq<Type>,
    numElems: nat,
    fieldIdx: seq<nat>,
    fields: seq<Type>,
    numFields: nat)

  /** Collecting a type records it, stops at a failing assertion, or never ends. */
  datatype Outcome = Recorded(rec: Record) | Aborts | Endless

  predicate Counted(r: Record) {
    r.numElems <= |r.elems| && r.numElems < U32 && r.numFields <= |r.fields| && r.numFields < U32
  }

  /** The record of the struct so far, with one more field copied from its record `s`. */
  function WithField(r: Record, s: Record): (o: Record)
    requires Counted(s)
    ensures Counted(r) ==> Counted(o)
  {
    Record(r.stride, r.elemIdx + [r.numElems], r.elems + s.elems[..s.numElems], (r.numElems + s.numElems) % U32,
           r.fieldIdx + [r.numFields], r.fields + s.fields[..s.numFields], (r.numFields + s.numFields) % U32)
  }

  /** The record of an array of `n` elements in its outermost and `total` in all
      dimensions, from the record `b` of its base type. */
  function ArrayRecord(n: nat, total: nat, b: Record): (o: Record)
    requires Counted(b)
    ensures Counted(o)
  {
    var outer := n % U32;
    AtMostItself(b.numElems * total);
    Record(total % U32,
           seq(outer, i requires 0 <= i < outer => ElementIndex(i, b.numElems, total, outer)),
           Repeat(total, b.elems[..b.numElems]), (b.numElems * total) % U32,
           seq(outer, i requires 0 <= i < outer => 0),
           b.fields[..b.numFields], b.numFields)
  }

  lemma AtMostItself(x: nat)
    ensures x % U32 <= x && x % U32 < U32
  {
  }

  function EmptyArrayRecord(base: Type): Record {
    Record(0, [0], [base], 1, [0], [base], 1)
  }

  function Collected(t: Type): (o: Outcome)
    ensures o.Recorded? ==> Counted(o.rec)
    decreases t, if t.Struct? then |t.fields| + 1 else 0
  {
    match t
    case Scalar(_) => Recorded(Record(1, [0], [t], 1, [0], [t], 1))
    case Struct(fs) =>
      var o := CollectedFields(t, |fs|);
      if o.Recorded? && |o.rec.elems| != o.rec.numElems then Aborts else o
    case Array(n, _) =>
      var total := Total(t) % U64;
      if total == 0 then Recorded(EmptyArrayRecord(Base(t)))
      else
        var o := Collected(Base(t));
        if !o.Recorded? then o
        else if total >= U32 then Endless
        else Recorded(ArrayRecord(n, total, o.rec))
  }

  /** The loop over the first `k` fields of a struct. */
  function CollectedFields(t: Type, k: nat): (o: Outcome)
    requires t.Struct? && k <= |t.fields|
    ensures o.Recorded? ==> Counted(o.rec)
    decreases t, k
  {
    if k == 0 then Recorded(Record(1, [], [], 0, [], [], 0))
    else
      var before := CollectedFields(t, k - 1);
      if !before.Recorded? then before
      else
        var o := Collected(t.fields[k - 1]);
        if o.Recorded? then Recorded(WithField(before.rec, o.rec)) else o
  }

  // ---------- when it is right ----------

  /** What should be recorded. */
  function Exact(t: Type): Record {
    Record(Total(t), ElemIdx(t), Flat(t), |Flat(t)|, FieldIdx(t), FlatFields(t), |FlatFields(t)|)
  }

  /** The record of `t` and those of all types collected for it are right. */
  predicate RecordsExact(t: Type) {
    && Collected(t) == Recorded(Exact(t))
    && match t
       case Scalar(_) => true
       case Struct(fs) => forall k | 0 <= k < |fs| :: RecordsExact(fs[k])
       case Array(_, _) => Total(t) > 0 ==> RecordsExact(Base(t))
  }

  lemma StructLists(fs: seq<Type>, k: nat)
    requires k <= |fs|
    ensures Flat(Struct(fs[..k])) == FlatAll(fs[..k])
    ensures |ElemIdx(Struct(fs[..k]))| == k && |FieldIdx(Struct(fs[..k]))| == k
    ensures forall i | 0 <= i < k :: ElemIdx(Struct(fs[..k]))[i] == |FlatAll(fs[..i])|
    ensures forall i | 0 <= i < k :: FieldIdx(Struct(fs[..k]))[i] == |FlatFields(Struct(fs[..i]))|
    ensures k < |fs| ==> FlatAll(fs[..k + 1]) == FlatAll(fs[..k]) + Flat(fs[k])
  {
    forall i | 0 <= i < k ensures fs[..k][..i] == fs[..i] {}
    if k < |fs| { SlotsOfPrefix(fs, k); }
  }

  lemma CountersFit(fs: seq<Type>, k: nat)
    requires k < |fs| && |FlatAll(fs)| < U32
    ensures |FlatAll(fs[..k])| + |Flat(fs[k])| == |FlatAll(fs[..k + 1])| < U32
    ensures |FlatFields(Struct(fs[..k]))| + |FlatFields(fs[k])| == |FlatFields(Struct(fs[..k + 1]))| < U32
  {
    FlatAllSplit(fs, k);
    FieldsOfPrefix(fs, k);
    FieldsAtMostSlotsAll(fs[..k + 1]);
  }

  /** Copying a right record into a right one, while the counters fit. */
  lemma WithExactField(fs: seq<Type>, k: nat)
    requires k < |fs| && |FlatAll(fs)| < U32 && Counted(Exact(fs[k]))
    ensures WithField(Exact(Struct(fs[..k])), Exact(fs[k])) == Exact(Struct(fs[..k + 1]))
  {
    hide Flat, FlatAll, FlatFields, ElemIdx, FieldIdx;
    StructLists(fs, k);
    StructLists(fs, k + 1);
    FieldsOfPrefix(fs, k);
    CountersFit(fs, k);
    var r, s, u := Exact(Struct(fs[..k])), Exact(fs[k]), Exact(Struct(fs[..k + 1]));
    assert r.elemIdx + [r.numElems] == u.elemIdx;
    assert r.fieldIdx + [r.numFields] == u.fieldIdx;
    assert s.elems[..s.numElems] == s.elems && s.fields[..s.numFields] == s.fields;
  }

  lemma NoFieldsYet(fs: seq<Type>)
    ensures Exact(Struct(fs[..0])) == Record(1, [], [], 0, [], [], 0)
  {
    assert fs[..0] == [];
    assert Collapse(Struct([])).fields == [];
  }

  lemma {:induction false} ExactFields(t: Type, k: nat)
    requires t.Struct? && k <= |t.fields| && |FlatAll(t.fields)| < U32
    requires forall i | 0 <= i < |t.fields| :: Collected(t.fields[i]) == Recorded(Exact(t.fields[i]))
    ensures CollectedFields(t, k) == Recorded(Exact(Struct(t.fields[..k])))
  {
    hide Exact, WithField, FlatAll;
    if k == 0 {
      NoFieldsYet(t.fields);
    } else {
      ExactFields(t, k - 1);
      WithExactField(t.fields, k - 1);
    }
  }

  lemma ExactStruct(t: Type)
    requires t.Struct? && |FlatAll(t.fields)| < U32
    requires forall i | 0 <= i < |t.fields| :: Collected(t.fields[i]) == Recorded(Exact(t.fields[i]))
    ensures Collected(t) == Recorded(Exact(t))
  {
    ExactFields(t, |t.fields|);
    assert t.fields[..|t.fields|] == t.fields;
  }

  /** The recorded starts of an array's elements are right. */
  lemma ExactStarts(t: Type, i: nat)
    requires t.Array? && 0 < Total(t) < U32 && |Flat(t)| < U32 && i < t.count
    ensures t.count < U32
    ensures ElementIndex(i, |Flat(Base(t))|, Total(t), t.count) == ElemIdx(t)[i]
  {
    var inner := Total(t.elem);
    FlatOfArray(t);
    ProductAtLeast(t.count, inner);
    assert |Flat(t.elem)| == |Flat(Base(t))| * inner by { SlotsOfElement(t.elem); }
    ElementIndexExact(i, |Flat(Base(t))|, inner, t.count);
  }

  lemma SlotsOfElement(e: Type)
    requires Total(e) > 0
    ensures |Flat(e)| == |Flat(Base(e))| * Total(e)
  {
    hide FlatAll, Repeat;
  }

  lemma SlotsOfArray(t: Type)
    requires t.Array? && Total(t) > 0
    ensures Flat(t) == Repeat(Total(t), Flat(Base(t))) && |Flat(t)| == |Flat(Base(t))| * Total(t)
  {
    ArrayIsRepeated(t);
    hide Flat, Total, Repeat;
  }

  lemma ArrayIsRepeated(t: Type)
    requires t.Array? && Total(t) > 0
    ensures Flat(t) == Repeat(Total(t), Flat(Base(t)))
  {
    hide FlatAll, Repeat;
  }

  lemma ArrayLists(t: Type)
    requires t.Array? && 0 < Total(t) < U32
    ensures 0 < t.count < U32 && |ElemIdx(t)| == |FieldIdx(t)| == t.count
    ensures forall i | 0 <= i < t.count :: FieldIdx(t)[i] == 0
  {
    ProductAtLeast(t.count, Total(t.elem));
  }

  lemma ExactArrayRecord(t: Type)
    requires t.Array? && 0 < Total(t) < U32 && |Flat(t)| < U32 && Counted(Exact(Base(t)))
    ensures ArrayRecord(t.count, Total(t), Exact(Base(t))) == Exact(t)
  {
    hide Flat, FlatFields, ElementIndex, Repeat, ElemIdx, FieldIdx, Total;
    var b := Exact(Base(t));
    SlotsOfArray(t);
    FieldsOfBase(t);
    ArrayLists(t);
    assert b.elems[..b.numElems] == Flat(Base(t)) && b.fields[..b.numFields] == FlatFields(t);
    var r := ArrayRecord(t.count, Total(t), b);
    forall i: nat | i < t.count ensures r.elemIdx[i] == ElemIdx(t)[i] { ExactStarts(t, i); }
    assert r.elemIdx == ElemIdx(t);
    assert r.fieldIdx == FieldIdx(t);
  }

  lemma ExactArray(t: Type)
    requires t.Array? && 0 < Total(t) < U32 && |Flat(t)| < U32 && Collected(Base(t)) == Recorded(Exact(Base(t)))
    ensures Collected(t) == Recorded(Exact(t))
  {
    hide Exact, ArrayRecord, Flat;
    ExactArrayRecord(t);
  }

  lemma ExactEmptyArray(t: Type)
    requires t.Array? && Total(t) == 0
    ensures Collected(t) == Recorded(Exact(t))
  {
    assert Base(Array(0, Base(t))) == Base(t);
    assert FlatFields(t) == [Base(t)];
  }

  lemma RecordCounts(t: Type)
    requires Collected(t).Recorded?
    ensures Collected(t).rec.numElems < U32
    ensures t.Array? && Total(t) > 0 ==>
            Collected(t).rec.stride < U32 && (Total(t) % U64 == 0 ==> Collected(t).rec.stride != Total(t))
  {
    if t.Struct? && t.fields != [] { assert CollectedFields(t, |t.fields|).Recorded?; }
  }

  /** All records that are made for `t` are right exactly if the elements and slots of
      every array, and the slots of every struct, fit in 32 bits. */
  lemma {:induction false} RecordsExactIff(t: Type)
    ensures RecordsExact(t) <==> Fits(t)
  {
    hide Collected, Exact, Flat, Total;
    match t
    case Scalar(_) => ScalarRecord(t);
    case Struct(fs) =>
      forall k | 0 <= k < |fs| ensures RecordsExact(fs[k]) <==> Fits(fs[k]) { RecordsExactIff(fs[k]); }
      if forall k | 0 <= k < |fs| :: RecordsExact(fs[k]) { StructExactIff(t); }
    case Array(_, _) =>
      RecordsExactIff(Base(t));
      ArrayExactIff(t);
  }

  lemma ScalarRecord(t: Type)
    requires t.Scalar?
    ensures Collected(t) == Recorded(Exact(t))
  {
  }

  lemma ExactIsCollected(t: Type)
    requires RecordsExact(t)
    ensures Collected(t) == Recorded(Exact(t))
  {
  }

  lemma StructExactIff(t: Type)
    requires t.Struct? && forall k | 0 <= k < |t.fields| :: RecordsExact(t.fields[k])
    ensures Collected(t) == Recorded(Exact(t)) <==> |Flat(t)| < U32
  {
    hide Collected, RecordsExact, FlatAll;
    forall k | 0 <= k < |t.fields|
      ensures Collected(t.fields[k]) == Recorded(Exact(t.fields[k]))
    {
      ExactIsCollected(t.fields[k]);
    }
    if |FlatAll(t.fields)| < U32 { ExactStruct(t); }
    if Collected(t) == Recorded(Exact(t)) { RecordCounts(t); }
  }

  lemma ArrayExactIff(t: Type)
    requires t.Array?
    ensures Total(t) == 0 ==> Collected(t) == Recorded(Exact(t))
    ensures Total(t) > 0 && RecordsExact(Base(t)) ==>
              (Collected(t) == Recorded(Exact(t)) <==> Total(t) < U32 && |Flat(t)| < U32)
  {
    if Total(t) == 0 {
      ExactEmptyArray(t);
    } else if RecordsExact(Base(t)) {
      hide Collected, RecordsExact, Flat;
      ExactIsCollected(Base(t));
      if Total(t) < U32 && |Flat(t)| < U32 { ExactArray(t); }
      if Collected(t) == Recorded(Exact(t)) { RecordCounts(t); }
    }
  }

  // ---------- the table ----------

  /** The types of the parts in the order in which they are recorded. */
  function PartTypes(t: Type, count: nat): seq<Type> {
    match t
    case Scalar(_) => [t]
    case Struct(fs) => fs
    case Array(_, _) => seq(count, _ => Base(t))
  }

  lemma RepeatMore<T>(n: nat, s: seq<T>)
    ensures Repeat(n + 1, s) == Repeat(n, s) + s && Repeat(0, s) == []
  {
  }

  lemma ArrayRecordIs(n: nat, total: nat, b: Record, elemIdx: seq<nat>, fieldIdx: seq<nat>)
    requires Counted(b) && total < U32
    requires |elemIdx| == |fieldIdx| == n % U32
    requires forall k: nat | k < n % U32 ::
             elemIdx[k] == ElementIndex(k, b.numElems, total, n % U32) && fieldIdx[k] == 0
    ensures ArrayRecord(n, total, b) == Record(total, elemIdx, Repeat(total, b.elems[..b.numElems]),
                                               (b.numElems * total) % U32, fieldIdx, b.fields[..b.numFields],
                                                   b.numFields)
  {
    hide ElementIndex, Repeat;
    var r := ArrayRecord(n, total, b);
    assert elemIdx == r.elemIdx;
    assert fieldIdx == r.fieldIdx;
  }

  class StInfo {
    var fldIdxVec: seq<nat>
    var elemIdxVec: seq<nat>
    var fldIdx2TypeMap: map<nat, Type>
    var finfo: seq<Type>
    var stride: nat
    var numOfFlattenElements: nat
    var numOfFlattenFields: nat
    var flattenElementTypes: seq<Type>

    constructor (s: nat)
      ensures fldIdxVec == elemIdxVec == [] && fldIdx2TypeMap == map[] && finfo == flattenElementTypes == []
      ensures stride == s % U32
    {
      fldIdxVec, elemIdxVec, fldIdx2TypeMap := [], [], map[];
      finfo, flattenElementTypes := [], [];
      stride, numOfFlattenElements, numOfFlattenFields := s % U32, s % U32, s % U32;
    }

    method AddFldWithType(fldIdx: nat, ty: Type, elemIdx: nat)
      modifies `fldIdxVec, `elemIdxVec, `fldIdx2TypeMap
      ensures fldIdxVec == old(fldIdxVec) + [fldIdx] && elemIdxVec == old(elemIdxVec) + [elemIdx]
      ensures fldIdx2TypeMap == old(fldIdx2TypeMap)[fldIdx := ty]
    {
      fldIdxVec := fldIdxVec + [fldIdx];
      elemIdxVec := elemIdxVec + [elemIdx];
      fldIdx2TypeMap := fldIdx2TypeMap[fldIdx := ty];
    }

    method SetNumOfFieldsAndElems(nf: nat, ne: nat)
      modifies `numOfFlattenFields, `numOfFlattenElements
      ensures numOfFlattenFields == nf % U32 && numOfFlattenElements == ne % U32
    {
      numOfFlattenFields := nf % U32;
      numOfFlattenElements := ne % U32;
    }

    /** The contents of the record, given the two counters. */
    ghost function Contents(nf: nat, ne: nat): Record
      reads `fldIdxVec, `elemIdxVec, `finfo, `stride, `flattenElementTypes
    {
      Record(stride, elemIdxVec, flattenElementTypes, ne, fldIdxVec, finfo, nf)
    }

    /** The object holds the record that collecting `t` makes. */
    ghost predicate Describes(t: Type)
      reads this
    {
      && Collected(t) == Recorded(Contents(numOfFlattenFields, numOfFlattenElements))
      && LastTypes(fldIdx2TypeMap, fldIdxVec, PartTypes(t, |fldIdxVec|))
    }

    /** The copying loop over another record's fields. */
    method PushFieldTypes(from: StInfo)
      requires from != this && from.numOfFlattenFields <= |from.finfo|
      modifies `finfo
      ensures finfo == old(finfo) + from.finfo[..from.numOfFlattenFields]
    {
      var j := 0;
      while j < from.numOfFlattenFields
        invariant j <= from.numOfFlattenFields && finfo == old(finfo) + from.finfo[..j]
      {
        finfo := finfo + [from.finfo[j]];
        j := j + 1;
      }
    }

    method PushElementTypes(from: StInfo)
      requires from != this && from.numOfFlattenElements <= |from.flattenElementTypes|
      modifies `flattenElementTypes
      ensures flattenElementTypes == old(flattenElementTypes) + from.flattenElementTypes[..from.numOfFlattenElements]
    {
      var j := 0;
      while j < from.numOfFlattenElements
        invariant j <= from.numOfFlattenElements
        invariant flattenElementTypes == old(flattenElementTypes) + from.flattenElementTypes[..j]
      {
        flattenElementTypes := flattenElementTypes + [from.flattenElementTypes[j]];
        j := j + 1;
      }
    }

    /** An array without elements gets one dummy element. */
    method RecordDummy(elemTy: Type)
      requires fldIdxVec == elemIdxVec == [] && fldIdx2TypeMap == map[] && finfo == flattenElementTypes == [] &&
               stride == 0
      modifies this
      ensures Contents(numOfFlattenFields, numOfFlattenElements) == EmptyArrayRecord(elemTy)
      ensures fldIdxVec == [0] && fldIdx2TypeMap == map[0 := elemTy]
    {
      AddFldWithType(0, elemTy, 0);
      SetNumOfFieldsAndElems(1, 1);
      finfo := finfo + [elemTy];
      flattenElementTypes := flattenElementTypes + [elemTy];
    }

    /** An array is recorded from the record `b` of its base type. */
    method RecordElements(n: nat, elem: StInfo, elemTy: Type, totalElemNum: nat, ghost b: Record)
      requires elem != this && 0 < totalElemNum < U32 && stride == totalElemNum
      requires b == elem.Contents(elem.numOfFlattenFields, elem.numOfFlattenElements)
      requires Counted(b)
      requires fldIdxVec == elemIdxVec == [] && fldIdx2TypeMap == map[] && finfo == flattenElementTypes == []
      modifies this
      ensures Contents(numOfFlattenFields, numOfFlattenElements) == ArrayRecord(n, totalElemNum, b)
      ensures LastTypes(fldIdx2TypeMap, fldIdxVec, seq(|fldIdxVec|, _ => elemTy))
    {
      hide ElementIndex, LastTypes, ArrayRecord, Repeat;
      var nfF, nfE := elem.numOfFlattenFields, elem.numOfFlattenElements;
      PushFieldTypes(elem);
      FillStarts(n, elemTy, nfE, totalElemNum);
      ArrayRecordIs(n, totalElemNum, b, elemIdxVec, fldIdxVec);
      RepeatMore(0, b.elems[..b.numElems]);
      var i := 0;
      while i < totalElemNum
        invariant i <= totalElemNum && flattenElementTypes == Repeat(i, b.elems[..b.numElems])
        modifies `flattenElementTypes
      {
        RepeatMore(i, b.elems[..b.numElems]);
        PushElementTypes(elem);
        i := i + 1;
      }
      SetNumOfFieldsAndElems(nfF, nfE * totalElemNum);
    }

    /** The loop over the elements of the outermost dimension. */
    method FillStarts(n: nat, elemTy: Type, nfE: nat, totalElemNum: nat)
      requires fldIdxVec == elemIdxVec == [] && fldIdx2TypeMap == map[]
      modifies `fldIdxVec, `elemIdxVec, `fldIdx2TypeMap
      ensures |elemIdxVec| == |fldIdxVec| == n % U32
      ensures forall k: nat | k < n % U32 ::
              elemIdxVec[k] == ElementIndex(k, nfE, totalElemNum, n % U32) && fldIdxVec[k] == 0
      ensures LastTypes(fldIdx2TypeMap, fldIdxVec, seq(|fldIdxVec|, _ => elemTy))
    {
      var outArrayElemNum := n % U32;
      var i: nat := 0;
      while i < outArrayElemNum
        invariant i <= outArrayElemNum
        invariant |elemIdxVec| == |fldIdxVec| == i
        invariant forall k: nat | k < i ::
                    elemIdxVec[k] == ElementIndex(k, nfE, totalElemNum, outArrayElemNum) && fldIdxVec[k] == 0
        invariant LastTypes(fldIdx2TypeMap, fldIdxVec, seq(|fldIdxVec|, _ => elemTy))
      {
        LastTypesGrow(fldIdx2TypeMap, fldIdxVec, seq(|fldIdxVec|, _ => elemTy), 0, elemTy);
        assert seq(|fldIdxVec|, _ => elemTy) + [elemTy] == seq(|fldIdxVec| + 1, _ => elemTy);
        AddFldWithType(0, elemTy, ElementIndex(i, nfE, totalElemNum, outArrayElemNum));
        i := i + 1;
      }
    }
  }

  /** A product of a wrapped number wraps like that of the number itself. */
  lemma WrappedProduct(x: nat, c: nat, m: nat)
    requires m > 0
    ensures ((x % m) * c) % m == (x * c) % m
  {
    var q, r := x / m, x % m;
    assert x * c == r * c + (q * c) * m;
    AddedMultiples(r * c, q * c, m);
  }

  lemma AddedMultiples(a: nat, k: nat, m: nat)
    requires m > 0
    ensures (a + k * m) % m == a % m
  {
    assert a + k * m == (a / m + k) * m + a % m;
    RemainderUnique(a + k * m, a / m + k, a % m, m);
  }

  lemma RemainderUnique(x: nat, q: nat, r: nat, m: nat)
    requires r < m && x == q * m + r
    ensures x % m == r
  {
    ProductGap(q, x / m, m);
    ProductGap(x / m, q, m);
  }

  /** The loop that multiplies the dimensions of a nested array, in 64 bits. */
  method CountElements(t: Type) returns (totalElemNum: nat, elemTy: Type)
    requires t.Array?
    ensures totalElemNum == Total(t) % U64 && elemTy == Base(t)
  {
    totalElemNum, elemTy := t.count, t.elem;
    while elemTy.Array?
      invariant totalElemNum < U64
      invariant (totalElemNum * Total(elemTy)) % U64 == Total(t) % U64 && Base(elemTy) == Base(t)
      decreases elemTy
    {
      DimensionFolded(totalElemNum, elemTy);
      totalElemNum := (totalElemNum * elemTy.count) % U64;
      elemTy := elemTy.elem;
    }
  }

  lemma DimensionFolded(total: nat, e: Type)
    requires e.Array?
    ensures ((total * e.count) % U64 * Total(e.elem)) % U64 == (total * Total(e)) % U64
  {
    WrappedProduct(total * e.count, Total(e.elem), U64);
    assert (total * e.count) * Total(e.elem) == total * (e.count * Total(e.elem));
  }

  // ---------- collecting ----------

  /** Once a loop over fields has stopped, it stays stopped. */
  lemma {:induction false} FieldsStop(t: Type, k: nat, n: nat)
    requires t.Struct? && k <= n <= |t.fields| && !CollectedFields(t, k).Recorded?
    ensures CollectedFields(t, n) == CollectedFields(t, k)
    decreases n - k
  {
    if k < n { FieldsStop(t, k, n - 1); }
  }

  /** The next field is collected without end only if the struct is. */
  lemma NextField(t: Type, k: nat)
    requires t.Struct? && k < |t.fields| && CollectedFields(t, k).Recorded?
    ensures Collected(t.fields[k]).Endless? ==> Collected(t).Endless?
    ensures Collected(t.fields[k]).Aborts? ==> Collected(t).Aborts?
    ensures Collected(t.fields[k]).Recorded? ==>
              CollectedFields(t, k + 1) == Recorded(WithField(CollectedFields(t, k).rec, Collected(t.fields[k]).rec))
  {
    if !Collected(t.fields[k]).Recorded? { FieldsStop(t, k + 1, |t.fields|); }
  }

  lemma LastField(t: Type)
    requires t.Struct? && CollectedFields(t, |t.fields|).Recorded?
    ensures var r := CollectedFields(t, |t.fields|).rec;
            Collected(t) == if |r.elems| == r.numElems then Recorded(r) else Aborts
  {
  }

  lemma ArrayOutcome(t: Type)
    requires t.Array?
    ensures var total, o := Total(t) % U64, Collected(Base(t));
      Collected(t) ==
        if total == 0 then Recorded(EmptyArrayRecord(Base(t)))
        else if !o.Recorded? then o
        else if total >= U32 then Endless
        else Recorded(ArrayRecord(t.count, total, o.rec))
    ensures Base(t) < t
  {
  }

  ghost function NumFields(t: Type): nat {
    if Collected(t).Recorded? then Collected(t).rec.numFields else 0
  }

  /** The size kept is that of the struct with the most fields. */
  ghost predicate LargestKnown(known: set<Type>, largest: Option<Type>, size: nat) {
    && (forall t | t in known && t.Struct? :: NumFields(t) <= size)
    && (size > 0 ==>
          && largest.Some? && largest.value in known
          && largest.value.Struct? && NumFields(largest.value) == size)
  }

  lemma LargestUpdated(known: set<Type>, largest: Option<Type>, size: nat, t: Type, nf: nat)
    requires LargestKnown(known, largest, size) && t.Struct? && nf == NumFields(t)
    ensures if nf > size then LargestKnown({t} + known, Some(t), nf) else LargestKnown({t} + known, largest, size)
  {
  }

  lemma LargestOfNonStruct(known: set<Type>, largest: Option<Type>, size: nat, t: Type)
    ensures LargestKnown(known, largest, size) && !t.Struct? ==> LargestKnown({t} + known, largest, size)
  {
  }

  lemma RecordOf(t: Type, info: StInfo)
    requires info.Describes(t)
    ensures Collected(t).Recorded? && Counted(Collected(t).rec)
    ensures Collected(t).rec == info.Contents(info.numOfFlattenFields, info.numOfFlattenElements)
  {
  }

  class LLVMModuleSet {
    var type2TypeInfo: map<Type, StInfo>
    var maxStruct: Option<Type>
    var maxStSize: nat
    ghost var infos: set<StInfo>

    constructor ()
      ensures Valid() && type2TypeInfo == map[]
    {
      type2TypeInfo, maxStruct, maxStSize, infos := map[], None, 0, {};
    }

    /** Every record describes its type. */
    ghost predicate Valid()
      reads this, infos
    {
      && (forall t | t in type2TypeInfo :: type2TypeInfo[t] in infos && type2TypeInfo[t].Describes(t))
      && LargestKnown(type2TypeInfo.Keys, maxStruct, maxStSize)
    }

    /** The records of `before` are still there, and the others are new. */
    twostate predicate Extends()
      reads this
    {
      && (forall t | t in old(type2TypeInfo) :: t in type2TypeInfo && type2TypeInfo[t] == old(type2TypeInfo)[t])
      && old(infos) <= infos && fresh(infos - old(infos))
    }

    /** Looks the record of `t` up, or makes it first. There is none exactly if an
        assertion on the sizes fails; types whose collection never ends are excluded. */
    method CollectTypeInfo(t: Type) returns (r: Option<StInfo>)
      requires Valid() && !Collected(t).Endless?
      modifies this
      ensures Valid() && Extends()
      ensures r.Some? <==> Collected(t).Recorded?
      ensures r.Some? ==> t in type2TypeInfo && type2TypeInfo[t] == r.value && r.value in infos && r.value.Describes(t)
      ensures forall x | x in type2TypeInfo && x !in old(type2TypeInfo) :: x == t || x < t
      decreases t, 1
    {
      hide Collected, LargestKnown, StInfo.Describes;
      if t in type2TypeInfo {
        RecordOf(t, type2TypeInfo[t]);
        return Some(type2TypeInfo[t]);
      }
      match t {
        case Array(_, _) =>
          r := CollectArrayInfo(t);
          if r.None? { return; }
        case Struct(_) =>
          var nf;
          r, nf := CollectStructInfo(t);
          if r.None? { return; }
          LargestUpdated(type2TypeInfo.Keys, maxStruct, maxStSize, t, nf);
          if nf > maxStSize {
            maxStruct := Some(t);
            maxStSize := nf;
          }
        case Scalar(_) =>
          var info := CollectSimpleTypeInfo(t);
          RecordOf(t, info);
          r := Some(info);
      }
      LargestOfNonStruct(type2TypeInfo.Keys, maxStruct, maxStSize, t);
      assert type2TypeInfo[t := r.value].Keys == {t} + type2TypeInfo.Keys;
      type2TypeInfo, infos := type2TypeInfo[t := r.value], infos + {r.value};
    }

    method CollectSimpleTypeInfo(t: Type) returns (info: StInfo)
      requires t.Scalar?
      ensures fresh(info) && info.Describes(t)
    {
      info := new StInfo(1);
      info.AddFldWithType(0, t, 0);
      info.finfo := info.finfo + [t];
      info.flattenElementTypes := info.flattenElementTypes + [t];
      info.SetNumOfFieldsAndElems(1, 1);
    }

    method CollectArrayInfo(t: Type) returns (r: Option<StInfo>)
      requires Valid() && !Collected(t).Endless? && t.Array?
      modifies this
      ensures Valid() && Extends()
      ensures r.Some? <==> Collected(t).Recorded?
      ensures r.Some? ==> fresh(r.value) && r.value !in infos && r.value.Describes(t)
      ensures forall x | x in type2TypeInfo && x !in old(type2TypeInfo) :: x < t
      decreases t, 0
    {
      hide Collected, Valid, Total, LastTypes, ArrayRecord, EmptyArrayRecord, Base;
      ArrayOutcome(t);
      var totalElemNum, elemTy := CountElements(t);
      var info := new StInfo(totalElemNum);
      if totalElemNum == 0 {
        info.RecordDummy(elemTy);
        DummyTypes(elemTy);
        assert PartTypes(t, 1) == [elemTy];
        return Some(info);
      }
      var elem := CollectTypeInfo(elemTy);
      if elem.None? { return None; }
      RecordOf(elemTy, elem.value);
      info.RecordElements(t.count, elem.value, elemTy, totalElemNum, Collected(elemTy).rec);
      r := Some(info);
    }

    method CollectStructInfo(t: Type) returns (r: Option<StInfo>, numFields: nat)
      requires Valid() && !Collected(t).Endless? && t.Struct?
      modifies this
      ensures Valid() && Extends()
      ensures r.Some? <==> Collected(t).Recorded?
      ensures r.Some? ==> fresh(r.value) && r.value !in infos && r.value.Describes(t) && numFields == NumFields(t)
      ensures forall x | x in type2TypeInfo && x !in old(type2TypeInfo) :: x < t
      decreases t, 0
    {
      hide Collected, CollectedFields, Valid, LastTypes, WithField;
      var info := new StInfo(1);
      numFields := 0;
      var strideOffset: nat := 0;
      var fs := t.fields;
      NothingCollected(t);
      var k := 0;
      while k < |fs|
        invariant k <= |fs| && fresh(info) && info !in infos
        invariant Valid() && Extends()
        invariant CollectedFields(t, k) == Recorded(info.Contents(numFields, strideOffset))
        invariant LastTypes(info.fldIdx2TypeMap, info.fldIdxVec, fs[..k])
        invariant forall x | x in type2TypeInfo && x !in old(type2TypeInfo) :: x < t
      {
        NextField(t, k);
        LastTypesGrow(info.fldIdx2TypeMap, info.fldIdxVec, fs[..k], numFields, fs[k]);
        assert fs[..k] + [fs[k]] == fs[..k + 1];
        ghost var before := info.Contents(numFields, strideOffset);
        info.AddFldWithType(numFields, fs[k], strideOffset);
        var ok, nf, ne := CollectField(fs[k], info);
        if !ok { return None, numFields; }
        FieldAdded(before, Collected(fs[k]).rec);
        numFields := (numFields + nf) % U32;
        strideOffset := (strideOffset + ne) % U32;
        k := k + 1;
      }
      assert fs[..k] == fs;
      LastField(t);
      if |info.flattenElementTypes| != strideOffset { return None, numFields; }
      CountersSmall(t);
      info.SetNumOfFieldsAndElems(numFields, strideOffset);
      r := Some(info);
    }

    /** The body of the loop over a struct's fields: a nested aggregate is copied from
        its own record. */
    method CollectField(t: Type, info: StInfo) returns (ok: bool, nf: nat, ne: nat)
      requires Valid() && !Collected(t).Endless? && info !in infos
      modifies this, info`finfo, info`flattenElementTypes
      ensures Valid() && Extends() && info !in infos
      ensures ok <==> Collected(t).Recorded?
      ensures ok ==> var s := Collected(t).rec;
        && nf == s.numFields && info.finfo == old(info.finfo) + s.fields[..nf]
        && ne == s.numElems && info.flattenElementTypes == old(info.flattenElementTypes) + s.elems[..ne]
      ensures forall x | x in type2TypeInfo && x !in old(type2TypeInfo) :: x == t || x < t
      ensures t.Scalar? ==> type2TypeInfo == old(type2TypeInfo)
      decreases t, 2
    {
      hide Valid, Collected;
      if t.Scalar? {
        ScalarOutcome(t);
        info.finfo := info.finfo + [t];
        info.flattenElementTypes := info.flattenElementTypes + [t];
        ok, nf, ne := true, 1, 1;
        assert [t][..1] == [t];
      } else {
        var sub := CollectTypeInfo(t);
        ok, nf, ne := sub.Some?, 0, 0;
        if ok {
          RecordOf(t, sub.value);
          info.PushFieldTypes(sub.value);
          nf, ne := sub.value.numOfFlattenFields, sub.value.numOfFlattenElements;
          info.PushElementTypes(sub.value);
        }
      }
    }
  }

  lemma ScalarOutcome(t: Type)
    requires t.Scalar?
    ensures Collected(t) == Recorded(Record(1, [0], [t], 1, [0], [t], 1))
  {
  }

  lemma DummyTypes(base: Type)
    ensures LastTypes(map[0 := base], [0], [base])
  {
  }

  lemma NothingCollected(t: Type)
    requires t.Struct?
    ensures CollectedFields(t, 0) == Recorded(Record(1, [], [], 0, [], [], 0)) && LastTypes(map[], [], t.fields[..0])
  {
  }

  lemma FieldAdded(r: Record, s: Record)
    requires Counted(s)
    ensures WithField(r, s) == Record(r.stride, r.elemIdx + [r.numElems], r.elems + s.elems[..s.numElems],
                                      (r.numElems + s.numElems) % U32, r.fieldIdx + [r.numFields],
                                      r.fields + s.fields[..s.numFields], (r.numFields + s.numFields) % U32)
  {
  }

  lemma CountersSmall(t: Type)
    requires t.Struct? && CollectedFields(t, |t.fields|).Recorded?
    ensures Counted(CollectedFields(t, |t.fields|).rec)
  {
  }
}
