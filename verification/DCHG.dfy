/** Debug-information types: when the class-hierarchy graph takes two of them
    for the same type, and the representatives it keeps for them. */
module DebugTypes {

  datatype Encoding =
    | Boolean | Signed | Unsigned
    | Float
    | SignedChar | UnsignedChar
    | OtherEncoding(code: nat)

  datatype DerivedTag = Member | Pointer | PtrToMember | Reference | RvalueReference

  datatype CompositeTag = Class | Structure | Union | Enumeration

  /** `Void` is the null pointer. Every other type carries the identity of its
      metadata node, so that equal values are the same node. */
  datatype DIType =
    | Void
    | Basic(id: nat, encoding: Encoding, size: nat, align: nat)
    | Subroutine(id: nat)
    | Qualified(id: nat, base: DIType)   // const, atomic, volatile, restrict, typedef
    | Derived(id: nat, tag: DerivedTag, base: DIType)
    | Array(id: nat, base: DIType)
    | Composite(id: nat, ctag: CompositeTag, identifier: string, name: string, file: nat, line: nat)

  method StripQualifiers(t: DIType) returns (r: DIType)
    ensures r == Strip(t)
  {
    r := t;
    while r.Qualified?
      invariant Strip(r) == Strip(t)
      decreases r
    {
      r := r.base;
    }
  }

  /** The type below all qualifiers and typedefs. */
  function Strip(t: DIType): (r: DIType)
    ensures !r.Qualified? && (r == t || r < t)
    ensures Strip(r) == r
  {
    if t.Qualified? then Strip(t.base) else t
  }

  predicate IsInteger(e: Encoding) { e.Boolean? || e.Signed? || e.Unsigned? }

  predicate IsChar(e: Encoding) { e.SignedChar? || e.UnsignedChar? }

  predicate OkayEncodings(e1: Encoding, e2: Encoding) {
    (IsInteger(e1) && IsInteger(e2)) || (e1.Float? && e2.Float?) || (IsChar(e1) && IsChar(e2))
  }

  predicate HasBase(t: DIType) { t.Derived? || t.Array? }

  predicate Teq(t1: DIType, t2: DIType) {
    var s1, s2 := Strip(t1), Strip(t2);
    if s1 == s2 then true
    else if s1.Void? || s2.Void? then false
    else if s1.Basic? && s2.Basic? then
      OkayEncodings(s1.encoding, s2.encoding) && s1.size == s2.size && s1.align == s2.align
    else if HasBase(s1) && HasBase(s2) then Teq(s1.base, s2.base)
    else if s1.Composite? && s2.Composite? then
      if s1.ctag != s2.ctag then false
      else if s1.ctag.Enumeration? then true
      else if s1.ctag.Class? then s1.identifier == s2.identifier
      else s1.name == s2.name && s1.file == s2.file && s1.line == s2.line
    else false
  }

  /** What distinguishes a type from those it is taken for: pointers, references,
      members and arrays only differ in what they lead to, integers in their
      size, classes in their mangled names. */
  datatype Shape =
    | VoidShape
    | IntegerShape(size: nat, align: nat)
    | FloatShape(size: nat, align: nat)
    | CharShape(size: nat, align: nat)
    | ItselfShape(t: DIType)
    | Indirect(to: Shape)
    | EnumShape
    | ClassShape(identifier: string)
    | RecordShape(ctag: CompositeTag, name: string, file: nat, line: nat)

  ghost function ShapeOf(t: DIType): Shape {
    match t
    case Void => VoidShape
    case Basic(_, e, size, align) =>
      (match e
       case Boolean => IntegerShape(size, align)
       case Signed => IntegerShape(size, align)
       case Unsigned => IntegerShape(size, align)
       case Float => FloatShape(size, align)
       case SignedChar => CharShape(size, align)
       case UnsignedChar => CharShape(size, align)
       case OtherEncoding(_) => ItselfShape(t))
    case Subroutine(_) => ItselfShape(t)
    case Qualified(_, b) => ShapeOf(b)
    case Derived(_, _, b) => Indirect(ShapeOf(b))
    case Array(_, b) => Indirect(ShapeOf(b))
    case Composite(_, tag, identifier, name, file, line) =>
      match tag
      case Enumeration => EnumShape
      case Class => ClassShape(identifier)
      case _ => RecordShape(tag, name, file, line)
  }

  lemma {:induction false} ShapeOfStrip(t: DIType)
    ensures ShapeOf(Strip(t)) == ShapeOf(t)
  {
    if t.Qualified? { ShapeOfStrip(t.base); }
  }

  /** `teq` compares shapes. */
  lemma {:induction false} TeqIsSameShape(t1: DIType, t2: DIType)
    ensures Teq(t1, t2) <==> ShapeOf(t1) == ShapeOf(t2)
    decreases t1
  {
    ShapeOfStrip(t1);
    ShapeOfStrip(t2);
    var s1, s2 := Strip(t1), Strip(t2);
    if HasBase(s1) && HasBase(s2) {
      TeqIsSameShape(s1.base, s2.base);
    }
  }

  lemma TeqEquivalence(a: DIType, b: DIType, c: DIType)
    ensures Teq(a, a)
    ensures Teq(a, b) ==> Teq(b, a)
    ensures Teq(a, b) && Teq(b, c) ==> Teq(a, c)
  {
    TeqIsSameShape(a, a);
    TeqIsSameShape(a, b);
    TeqIsSameShape(b, a);
    TeqIsSameShape(b, c);
    TeqIsSameShape(a, c);
  }

  // ---------- the relation of the header's comment ----------

  /** What the comment on `teq` describes: the same node, or derived types of the same
      tag whose bases are equal in this sense, ignoring qualifiers. */
  predicate DocumentedTeq(t1: DIType, t2: DIType) {
    var s1, s2 := Strip(t1), Strip(t2);
    s1 == s2 || (s1.Derived? && s2.Derived? && s1.tag == s2.tag && DocumentedTeq(s1.base, s2.base))
  }

  lemma {:induction false} DocumentedIsFiner(t1: DIType, t2: DIType)
    requires DocumentedTeq(t1, t2)
    ensures Teq(t1, t2)
  {
    var s1, s2 := Strip(t1), Strip(t2);
    if s1 != s2 { DocumentedIsFiner(s1.base, s2.base); }
  }

  /** Two nodes for a signed and an unsigned number of the same size. */
  lemma DocumentedDiffers()
    ensures var int32, uint32 := Basic(0, Signed, 32, 32), Basic(1, Unsigned, 32, 32);
            Teq(int32, uint32) && !DocumentedTeq(int32, uint32)
  {
  }

  /** Where two types first differ below qualifiers and derived types of equal tags. */
  function Meet(t1: DIType, t2: DIType): (DIType, DIType) {
    var s1, s2 := Strip(t1), Strip(t2);
    if s1 != s2 && s1.Derived? && s2.Derived? && s1.tag == s2.tag then Meet(s1.base, s2.base) else (s1, s2)
  }

  /** Different nodes that the code takes for the same type: numbers of one kind and
      size; pointers, references, members and arrays of different sorts that lead to
      types of one shape; records that agree in what names them. */
  ghost predicate TakenForSame(a: DIType, b: DIType) {
    && a != b
    && ( || (a.Basic? && b.Basic? && OkayEncodings(a.encoding, b.encoding) && a.size == b.size && a.align == b.align)
         || (HasBase(a) && HasBase(b) && ShapeOf(a.base) == ShapeOf(b.base))
         || (a.Composite? && b.Composite? && a.ctag == b.ctag &&
              match a.ctag
              case Enumeration => true
              case Class => a.identifier == b.identifier
              case _ => a.name == b.name && a.file == b.file && a.line == b.line))
  }

  /** The code and the comment agree on two types exactly if the nodes at which these
      differ are not of that kind. */
  lemma {:induction false} DocumentedAgreesIff(t1: DIType, t2: DIType)
    ensures (Teq(t1, t2) <==> DocumentedTeq(t1, t2)) <==> !TakenForSame(Meet(t1, t2).0, Meet(t1, t2).1)
  {
    var s1, s2 := Strip(t1), Strip(t2);
    if s1 != s2 && s1.Derived? && s2.Derived? && s1.tag == s2.tag {
      DocumentedAgreesIff(s1.base, s2.base);
    } else if HasBase(s1) && HasBase(s2) {
      TeqIsSameShape(s1.base, s2.base);
    }
  }
}

/** The class-hierarchy graph over canonical types, and its memoised queries. */
module DCHG {
  import opened DebugTypes
  import opened Sequences

  type NodeId = nat

  datatype EdgeKind = Inheritance | Instance | FirstField | StdDef

  datatype InEdge = InEdge(src: NodeId, kind: EdgeKind)

  type InEdges = map<NodeId, seq<InEdge>>

  predicate Followed(kind: EdgeKind, firstField: bool) {
    kind.Inheritance? || kind.StdDef? || (kind.FirstField? && firstField)
  }

  // ---------- descendants ----------

  ghost predicate ChildStep(g: InEdges, firstField: bool, n: NodeId, m: NodeId) {
    n in g && exists e :: e in g[n] && e.src == m && Followed(e.kind, firstField)
  }

  ghost predicate IsPath(g: InEdges, firstField: bool, path: seq<NodeId>) {
    path != [] && forall i | 0 <= i < |path| - 1 :: ChildStep(g, firstField, path[i], path[i + 1])
  }

  ghost predicate Descends(g: InEdges, firstField: bool, n: NodeId, m: NodeId) {
    exists path :: IsPath(g, firstField, path) && path[0] == n && path[|path| - 1] == m
  }

  /** Sources of edges are nodes, and along the edges that can be followed they have
      smaller rank than the targets. */
  ghost predicate Acyclic(g: InEdges, rank: map<NodeId, nat>) {
    && rank.Keys == g.Keys
    && forall n, e | n in g && e in g[n] :: e.src in g && (Followed(e.kind, true) ==> rank[e.src] < rank[n])
  }

  ghost function Descendants(g: InEdges, firstField: bool, n: NodeId): set<NodeId> {
    set m | m in g && Descends(g, firstField, n, m)
  }

  lemma DescendsSelf(g: InEdges, firstField: bool, n: NodeId)
    ensures Descends(g, firstField, n, n)
  {
    assert IsPath(g, firstField, [n]);
  }

  lemma DescendsTransitive(g: InEdges, firstField: bool, a: NodeId, b: NodeId, c: NodeId)
    requires Descends(g, firstField, a, b) && Descends(g, firstField, b, c)
    ensures Descends(g, firstField, a, c)
  {
    var p :| IsPath(g, firstField, p) && p[0] == a && p[|p| - 1] == b;
    var q :| IsPath(g, firstField, q) && q[0] == b && q[|q| - 1] == c;
    var r := p + q[1..];
    forall i | 0 <= i < |r| - 1 ensures ChildStep(g, firstField, r[i], r[i + 1]) {
      if i >= |p| - 1 { assert r[i] == q[i - (|p| - 1)] && r[i + 1] == q[i + 1 - (|p| - 1)]; }
    }
    assert IsPath(g, firstField, r) && r[0] == a && r[|r| - 1] == c;
  }

  lemma {:induction false} PathLowersRank(g: InEdges, rank: map<NodeId, nat>, firstField: bool, path: seq<NodeId>)
    requires Acyclic(g, rank) && IsPath(g, firstField, path) && path[0] in g
    ensures path[|path| - 1] in g
    ensures if |path| == 1 then path[|path| - 1] == path[0] else rank[path[|path| - 1]] < rank[path[0]]
    decreases |path|
  {
    if |path| > 1 {
      var front := path[..|path| - 1];
      assert IsPath(g, firstField, front);
      PathLowersRank(g, rank, firstField, front);
      assert ChildStep(g, firstField, path[|path| - 2], path[|path| - 1]);
    }
  }

  lemma DescendsLowersRank(g: InEdges, rank: map<NodeId, nat>, firstField: bool, n: NodeId, m: NodeId)
    requires Acyclic(g, rank) && n in g && Descends(g, firstField, n, m)
    ensures m in g && (n == m || rank[m] < rank[n])
  {
    var path :| IsPath(g, firstField, path) && path[0] == n && path[|path| - 1] == m;
    PathLowersRank(g, rank, firstField, path);
  }

  /** A node's descendants are itself and those of its children. */
  lemma DescendsFirstStep(g: InEdges, firstField: bool, n: NodeId, m: NodeId)
    ensures Descends(g, firstField, n, m) <==>
              n == m || exists c :: ChildStep(g, firstField, n, c) && Descends(g, firstField, c, m)
  {
    DescendsSelf(g, firstField, n);
    if Descends(g, firstField, n, m) && n != m {
      var path :| IsPath(g, firstField, path) && path[0] == n && path[|path| - 1] == m;
      var rest := path[1..];
      assert IsPath(g, firstField, rest) && rest[|rest| - 1] == m;
      assert ChildStep(g, firstField, n, rest[0]) && Descends(g, firstField, rest[0], m);
    }
    if c :| ChildStep(g, firstField, n, c) && Descends(g, firstField, c, m) {
      assert IsPath(g, firstField, [n, c]) && [n, c][|[n, c]| - 1] == c;
      assert Descends(g, firstField, n, c);
      DescendsTransitive(g, firstField, n, c, m);
    }
  }

  /** The descendant relation is a partial order on the nodes. */
  lemma DescendsPartialOrder(g: InEdges, rank: map<NodeId, nat>, firstField: bool, a: NodeId, b: NodeId, c: NodeId)
    requires Acyclic(g, rank) && a in g && b in g
    ensures Descends(g, firstField, a, a)
    ensures Descends(g, firstField, a, b) && Descends(g, firstField, b, a) ==> a == b
    ensures Descends(g, firstField, a, b) && Descends(g, firstField, b, c) ==> Descends(g, firstField, a, c)
  {
    DescendsSelf(g, firstField, a);
    if Descends(g, firstField, a, b) {
      DescendsLowersRank(g, rank, firstField, a, b);
      if Descends(g, firstField, b, a) { DescendsLowersRank(g, rank, firstField, b, a); }
      if Descends(g, firstField, b, c) { DescendsTransitive(g, firstField, a, b, c); }
    }
  }

  /** One step down: along an inheritance edge, an edge for the standard's definitions, or,
      if they are asked for, an edge for first fields. */
  ghost predicate StepsDown(g: InEdges, firstField: bool, n: NodeId, m: NodeId) {
    && n in g
    && (InEdge(m, Inheritance) in g[n] || InEdge(m, StdDef) in g[n] || (firstField && InEdge(m, FirstField) in g[n]))
  }

  ghost predicate DownPath(g: InEdges, firstField: bool, path: seq<NodeId>, n: NodeId, m: NodeId) {
    && path != [] && path[0] == n && path[|path| - 1] == m
    && forall i | 0 <= i < |path| - 1 :: StepsDown(g, firstField, path[i], path[i + 1])
  }

  /** Descendants are reached by such steps, and by no others. */
  lemma DescendsIff(g: InEdges, firstField: bool, n: NodeId, m: NodeId)
    ensures Descends(g, firstField, n, m) <==> exists path :: DownPath(g, firstField, path, n, m)
  {
    forall a, b ensures ChildStep(g, firstField, a, b) <==> StepsDown(g, firstField, a, b) {
      ChildStepIs(g, firstField, a, b);
    }
    hide ChildStep, StepsDown;
    if Descends(g, firstField, n, m) {
      var path :| IsPath(g, firstField, path) && path[0] == n && path[|path| - 1] == m;
      assert DownPath(g, firstField, path, n, m);
    }
    if path :| DownPath(g, firstField, path, n, m) { assert IsPath(g, firstField, path); }
  }

  lemma ChildStepIs(g: InEdges, firstField: bool, a: NodeId, b: NodeId)
    ensures ChildStep(g, firstField, a, b) <==> StepsDown(g, firstField, a, b)
  {
    if ChildStep(g, firstField, a, b) {
      var e :| e in g[a] && e.src == b && Followed(e.kind, firstField);
      assert e == InEdge(b, e.kind);
    }
  }

  /** Between two nodes with one edge that edge's kind decides. */
  lemma OneEdgeDescends(src: NodeId, dst: NodeId, kind: EdgeKind, firstField: bool)
    requires src != dst
    ensures var g: InEdges := map[src := [], dst := [InEdge(src, kind)]];
      Descends(g, firstField, dst, src) <==>
        kind == Inheritance || kind == StdDef || (kind == FirstField && firstField)
  {
    var g: InEdges := map[src := [], dst := [InEdge(src, kind)]];
    ChildStepIs(g, firstField, dst, src);
    DescendsFirstStep(g, firstField, dst, src);
    if Descends(g, firstField, dst, src) {
      var c :| ChildStep(g, firstField, dst, c) && Descends(g, firstField, c, src);
      assert c == src;
    }
    if ChildStep(g, firstField, dst, src) { DescendsSelf(g, firstField, src); }
  }

  /** Asking for first fields only adds descendants. */
  lemma FirstFieldsAdd(g: InEdges, n: NodeId)
    ensures Descendants(g, false, n) <= Descendants(g, true, n)
  {
    forall m | Descends(g, false, n, m) ensures Descends(g, true, n, m) {
      var path :| IsPath(g, false, path) && path[0] == n && path[|path| - 1] == m;
      forall i | 0 <= i < |path| - 1 ensures ChildStep(g, true, path[i], path[i + 1]) {
        assert ChildStep(g, false, path[i], path[i + 1]);
      }
      assert IsPath(g, true, path);
    }
  }

  /** A new node without edges changes nobody else's descendants. */
  lemma DescendsBeforeNewNode(g: InEdges, g': InEdges, firstField: bool, extra: NodeId, n: NodeId, m: NodeId)
    requires g' == g[extra := []] && extra !in g && n in g
    requires forall n, e | n in g && e in g[n] :: e.src in g
    ensures Descends(g, firstField, n, m) <==> Descends(g', firstField, n, m)
  {
  }

  // ---------- canonical types ----------

  /** Representatives are pairwise different types, without qualifiers. */
  ghost predicate Representatives(reps: set<DIType>) {
    forall a, b | a in reps && b in reps && Teq(a, b) :: a == b
  }

  /** The representative of `t` among `reps`. */
  ghost predicate Represents(reps: set<DIType>, t: DIType, r: DIType) {
    r in reps && Teq(t, r)
  }

  /** Two types have the same representative exactly when they are taken for the
      same type, also when the set of representatives grew in between. */
  lemma SameRepresentativeIff(reps: set<DIType>, reps': set<DIType>, t1: DIType, t2: DIType, r1: DIType, r2: DIType)
    requires Representatives(reps') && reps <= reps'
    requires Represents(reps, t1, r1) && Represents(reps', t2, r2)
    ensures r1 == r2 <==> Teq(t1, t2)
  {
    TeqIsSameShape(t1, r1);
    TeqIsSameShape(t2, r2);
    TeqIsSameShape(t1, t2);
    TeqIsSameShape(r1, r2);
  }

  lemma UniqueRepresentative(reps: set<DIType>, t: DIType, r1: DIType, r2: DIType)
    requires Representatives(reps) && Represents(reps, t, r1) && Represents(reps, t, r2)
    ensures r1 == r2
  {
    TeqEquivalence(t, t, t);
    SameRepresentativeIff(reps, reps, t, t, r1, r2);
  }

  /** Nodes and the canonical types they stand for correspond one to one. */
  ghost predicate NodesOk(reps: set<DIType>, nodes: map<DIType, NodeId>, types: map<NodeId, DIType>, g: InEdges,
                          next: nat)
  {
    && (forall t | t in nodes :: t in reps && nodes[t] in types && types[nodes[t]] == t)
    && (forall n | n in types :: n < next && types[n] in nodes && nodes[types[n]] == n)
    && types.Keys == g.Keys && Simple(g)
  }

  /** Edges come from nodes, and none is there twice. */
  ghost predicate Simple(g: InEdges) {
    && (forall n, e | n in g && e in g[n] :: e.src in g)
    && forall n | n in g :: Distinct(g[n])
  }

  /** A memoised entry holds exactly the descendants of its type's node. */
  ghost predicate CacheOk(g: InEdges, nodes: map<DIType, NodeId>, firstField: bool, cache: map<DIType, set<NodeId>>) {
    forall t | t in cache :: t in nodes && cache[t] == Descendants(g, firstField, nodes[t])
  }

  lemma NodesMore(reps: set<DIType>, nodes: map<DIType, NodeId>, types: map<NodeId, DIType>, g: InEdges, next: nat,
                  rank: map<NodeId, nat>, t: DIType)
    requires NodesOk(reps, nodes, types, g, next) && t in reps && t !in nodes
    ensures next !in g
    ensures NodesOk(reps, nodes[t := next], types[next := t], g[next := []], next + 1)
    ensures Acyclic(g, rank) ==> Acyclic(g[next := []], rank[next := 0])
  {
  }

  lemma CacheMore(reps: set<DIType>, nodes: map<DIType, NodeId>, types: map<NodeId, DIType>, g: InEdges, next: nat,
                  t: DIType, firstField: bool, cache: map<DIType, set<NodeId>>)
    requires NodesOk(reps, nodes, types, g, next) && t !in nodes
    ensures CacheOk(g, nodes, firstField, cache) ==> CacheOk(g[next := []], nodes[t := next], firstField, cache)
  {
    hide Descendants;
    if CacheOk(g, nodes, firstField, cache) {
      forall x | x in cache ensures cache[x] == Descendants(g[next := []], firstField, nodes[t := next][x]) {
        DescendantsBeforeNewNode(g, g[next := []], firstField, next, nodes[x]);
      }
    }
  }

  /** The answer `r` for `t0` is remembered: for `t0` itself if its answer came from the
      type below its qualifiers, else for that type. */
  ghost predicate Remembers(before: map<DIType, DIType>, t0: DIType, r: DIType, after: map<DIType, DIType>) {
    after == if t0 in before then before
             else if Strip(t0) in before then before[t0 := r]
             else before[Strip(t0) := r]
  }

  class DCHGraph {
    var canonicalTypeMap: map<DIType, DIType>
    var canonicalTypes: set<DIType>
    var diTypeToNodeMap: map<DIType, NodeId>
    var nodeTypes: map<NodeId, DIType>
    var inEdges: InEdges
    var numTypes: nat
    var chaMap: map<DIType, set<NodeId>>
    var chaFFMap: map<DIType, set<NodeId>>
    ghost var rank: map<NodeId, nat>

    ghost predicate ValidTypes()
      reads `canonicalTypes, `canonicalTypeMap
    {
      && Representatives(canonicalTypes)
      && (forall t | t in canonicalTypeMap :: Represents(canonicalTypes, t, canonicalTypeMap[t]))
      && (forall c | c in canonicalTypes :: c in canonicalTypeMap && canonicalTypeMap[c] == c)
    }

    ghost predicate ValidNodes()
      reads `canonicalTypes, `diTypeToNodeMap, `nodeTypes, `inEdges, `numTypes
    {
      NodesOk(canonicalTypes, diTypeToNodeMap, nodeTypes, inEdges, numTypes)
    }

    ghost predicate ValidRank()
      reads `inEdges, `rank
    {
      Acyclic(inEdges, rank)
    }

    ghost predicate ValidCache(firstField: bool, cache: map<DIType, set<NodeId>>)
      reads `inEdges, `diTypeToNodeMap
    {
      CacheOk(inEdges, diTypeToNodeMap, firstField, cache)
    }

    /** The graph, whatever its edges and whatever has been asked. */
    ghost predicate Built()
      reads `canonicalTypes, `canonicalTypeMap, `diTypeToNodeMap, `nodeTypes, `inEdges, `numTypes
    {
      ValidTypes() && ValidNodes()
    }

    /** The hierarchy is acyclic and all cached answers are right. */
    ghost predicate Valid()
      reads this
    {
      Built() && ValidRank() && ValidCache(false, chaMap) && ValidCache(true, chaFFMap)
    }

    constructor ()
      ensures Valid() && canonicalTypes == {} && nodeTypes == map[]
    {
      canonicalTypeMap, canonicalTypes := map[], {};
      diTypeToNodeMap, nodeTypes, inEdges, numTypes := map[], map[], map[], 0;
      chaMap, chaFFMap := map[], map[];
      rank := map[];
    }

    /** The one representative of `t0`; a type met for the first time becomes the
        representative of its kind. */
    method GetCanonicalType(t0: DIType) returns (r: DIType)
      requires ValidTypes()
      modifies `canonicalTypeMap, `canonicalTypes
      ensures ValidTypes() && Represents(canonicalTypes, t0, r)
      ensures old(canonicalTypes) <= canonicalTypes <= old(canonicalTypes) + {Strip(t0)}
      ensures (exists c :: Represents(old(canonicalTypes), t0, c)) ==> canonicalTypes == old(canonicalTypes)
      ensures Remembers(old(canonicalTypeMap), t0, r, canonicalTypeMap)
    {
      var t := StripQualifiers(t0);
      TeqIsSameShape(t0, t);
      ShapeOfStrip(t0);
      if t0 in canonicalTypeMap { return canonicalTypeMap[t0]; }
      if t0 != t && t in canonicalTypeMap {
        TeqIsSameShape(t, canonicalTypeMap[t]);
        TeqIsSameShape(t0, canonicalTypeMap[t]);
        canonicalTypeMap := canonicalTypeMap[t0 := canonicalTypeMap[t]];
        return canonicalTypeMap[t0];
      }
      var rest := canonicalTypes;
      while rest != {}
        invariant rest <= canonicalTypes && forall c | c in canonicalTypes - rest :: !Teq(t, c)
        decreases rest
      {
        var canonType :| canonType in rest;
        rest := rest - {canonType};
        if Teq(t, canonType) {
          TeqIsSameShape(t, canonType);
          TeqIsSameShape(t0, canonType);
          canonicalTypeMap := canonicalTypeMap[t := canonType];
          return canonType;
        }
      }
      forall c | c in canonicalTypes ensures !Teq(t0, c) && !Teq(c, t) {
        TeqIsSameShape(t, c);
        TeqIsSameShape(t0, c);
        TeqIsSameShape(c, t);
      }
      canonicalTypes := canonicalTypes + {t};
      canonicalTypeMap := canonicalTypeMap[t := t];
      TeqIsSameShape(t, t);
      r := t;
    }

    /** Over any sequence of calls two types get the same answer exactly when
        they are taken for the same type. */
    method CanonicalizeAll(ts: seq<DIType>) returns (rs: seq<DIType>)
      requires ValidTypes()
      modifies `canonicalTypeMap, `canonicalTypes
      ensures ValidTypes() && |rs| == |ts|
      ensures forall i, j | 0 <= i < |ts| && 0 <= j < |ts| :: rs[i] == rs[j] <==> Teq(ts[i], ts[j])
    {
      rs := [];
      for k := 0 to |ts|
        invariant ValidTypes() && |rs| == k
        invariant forall i | 0 <= i < k :: Represents(canonicalTypes, ts[i], rs[i])
      {
        var r := GetCanonicalType(ts[k]);
        rs := rs + [r];
      }
      forall i, j | 0 <= i < |ts| && 0 <= j < |ts| ensures rs[i] == rs[j] <==> Teq(ts[i], ts[j]) {
        SameRepresentativeIff(canonicalTypes, canonicalTypes, ts[i], ts[j], rs[i], rs[j]);
      }
    }

    /** The node of a canonical type; a new one has no edges. */
    method GetOrCreateNode(t0: DIType) returns (type_: DIType, n: NodeId)
      requires Built()
      modifies this
      ensures Built() && (old(Valid()) ==> Valid()) && Represents(canonicalTypes, t0, type_)
      ensures old(canonicalTypes) <= canonicalTypes
      ensures type_ in diTypeToNodeMap && n == diTypeToNodeMap[type_]
      ensures forall t | t in old(diTypeToNodeMap) ::
              t in diTypeToNodeMap && diTypeToNodeMap[t] == old(diTypeToNodeMap)[t]
      ensures forall m | m in old(inEdges) :: m in inEdges && inEdges[m] == old(inEdges)[m]
      ensures inEdges == old(inEdges) || (n !in old(inEdges) && inEdges == old(inEdges)[n := []])
      ensures chaMap == old(chaMap) && chaFFMap == old(chaFFMap)
    {
      hide Teq, Representatives, Acyclic, Descendants, CacheOk, Simple, Remembers;
      type_ := GetCanonicalType(t0);
      if type_ in diTypeToNodeMap {
        n := diTypeToNodeMap[type_];
      } else {
        n := AddNode(type_);
      }
    }

    method AddNode(type_: DIType) returns (n: NodeId)
      requires Built() && type_ in canonicalTypes && type_ !in diTypeToNodeMap
      modifies `diTypeToNodeMap, `nodeTypes, `inEdges, `numTypes, `rank
      ensures Built() && (old(Valid()) ==> Valid()) && n !in old(inEdges)
      ensures diTypeToNodeMap == old(diTypeToNodeMap)[type_ := n] && inEdges == old(inEdges)[n := []]
    {
      hide ValidTypes, NodesOk, CacheOk, Acyclic;
      n := numTypes;
      NodesMore(canonicalTypes, diTypeToNodeMap, nodeTypes, inEdges, numTypes, rank, type_);
      CacheMore(canonicalTypes, diTypeToNodeMap, nodeTypes, inEdges, numTypes, type_, false, chaMap);
      CacheMore(canonicalTypes, diTypeToNodeMap, nodeTypes, inEdges, numTypes, type_, true, chaFFMap);
      numTypes := numTypes + 1;
      diTypeToNodeMap := diTypeToNodeMap[type_ := n];
      nodeTypes := nodeTypes[n := type_];
      inEdges := inEdges[n := []];
      rank := rank[n := 0];
    }

    /** Adds an edge from `t1`'s node to `t2`'s unless it is there. `g` is the graph with
        both nodes, but without the edge. The hierarchy stays acyclic and the cached
        answers stay right if the edge closes no cycle and brings no cached answer
        anything new. */
    method AddEdge(t1: DIType, t2: DIType, et: EdgeKind) returns (src: NodeId, dst: NodeId, ghost g: InEdges)
      requires Built()
      modifies this
      ensures Built()
      ensures exists c :: Represents(canonicalTypes, t1, c) && c in diTypeToNodeMap && diTypeToNodeMap[c] == src
      ensures exists c :: Represents(canonicalTypes, t2, c) && c in diTypeToNodeMap && diTypeToNodeMap[c] == dst
      ensures src in g && dst in g && Simple(g) && MoreNodes(old(inEdges), g)
      ensures inEdges == WithEdge(g, src, dst, et)
      ensures forall t | t in old(diTypeToNodeMap) ::
              t in diTypeToNodeMap && diTypeToNodeMap[t] == old(diTypeToNodeMap)[t]
      ensures chaMap == old(chaMap) && chaFFMap == old(chaFFMap)
      ensures (old(Valid()) && NoCycle(g, src, dst, et) &&
               CacheCovers(g, diTypeToNodeMap, false, chaMap, src, dst, et) &&
               CacheCovers(g, diTypeToNodeMap, true, chaFFMap, src, dst, et)) ==> Valid()
    {
      hide Teq, Representatives, Acyclic, Descendants, CacheOk, NodesOk, Represents, ValidTypes, CacheCovers, NoCycle,
          Simple, Descends, Lifted;
      var c1, c2;
      c1, src := GetOrCreateNode(t1);
      ghost var reps1 := canonicalTypes;
      c2, dst := GetOrCreateNode(t2);
      StillRepresents(reps1, canonicalTypes, t1, c1);
      NodesHaveEdges(canonicalTypes, diTypeToNodeMap, nodeTypes, inEdges, numTypes, c1);
      NodesHaveEdges(canonicalTypes, diTypeToNodeMap, nodeTypes, inEdges, numTypes, c2);
      g := inEdges;
      EdgeAdded(canonicalTypes, diTypeToNodeMap, nodeTypes, g, numTypes, rank, src, dst, et);
      CacheKeptIff(canonicalTypes, diTypeToNodeMap, nodeTypes, g, numTypes, false, chaMap, src, dst, et);
      CacheKeptIff(canonicalTypes, diTypeToNodeMap, nodeTypes, g, numTypes, true, chaFFMap, src, dst, et);
      if InEdge(src, et) !in inEdges[dst] {
        inEdges := inEdges[dst := inEdges[dst] + [InEdge(src, et)]];
        rank := if src in rank then Lifted(inEdges, rank, src, dst, et) else rank;
      }
    }

    /** `cha` on a node: from the cache, or from the children's answers. */
    method ChaOfNode(type_: DIType, firstField: bool) returns (children: set<NodeId>)
      requires Valid() && type_ in diTypeToNodeMap
      modifies `chaMap, `chaFFMap
      ensures Valid() && children == Descendants(inEdges, firstField, diTypeToNodeMap[type_])
      ensures if firstField then chaMap == old(chaMap) else chaFFMap == old(chaFFMap)
      ensures var cache := if firstField then chaFFMap else chaMap; type_ in cache && cache[type_] == children
      decreases rank[diTypeToNodeMap[type_]]
    {
      hide Teq, ValidTypes, Descendants, DescendantsOf, Simple, Acyclic, NodesOk, CacheOk;
      NodesHaveEdges(canonicalTypes, diTypeToNodeMap, nodeTypes, inEdges, numTypes, type_);
      CachedAnswer(inEdges, diTypeToNodeMap, firstField, if firstField then chaFFMap else chaMap, type_);
      if firstField && type_ in chaFFMap { return chaFFMap[type_]; }
      if !firstField && type_ in chaMap { return chaMap[type_]; }
      var node := diTypeToNodeMap[type_];
      children := {node};
      var edges := inEdges[node];
      var k := 0;
      DescendantsOfNone(inEdges, firstField);
      assert edges[..0] == [];
      while k < |edges|
        invariant k <= |edges| && Valid()
        invariant children == {node} + DescendantsOf(inEdges, firstField, edges[..k])
        invariant if firstField then chaMap == old(chaMap) else chaFFMap == old(chaFFMap)
      {
        var edge := edges[k];
        assert edge in inEdges[node];
        ChildNode(canonicalTypes, diTypeToNodeMap, nodeTypes, inEdges, numTypes, rank, node, edge);
        if Followed(edge.kind, firstField) {
          var cchildren := ChaOfNode(nodeTypes[edge.src], firstField);
          children := children + cchildren;
        }
        DescendantsOfMore(inEdges, firstField, edges, k);
        k := k + 1;
      }
      assert edges[..k] == edges;
      DescendantsByChildren(inEdges, rank, firstField, node);
      CacheAnswer(inEdges, diTypeToNodeMap, firstField, if firstField then chaFFMap else chaMap, type_, children);
      if firstField {
        chaFFMap := chaFFMap[type_ := children];
      } else {
        chaMap := chaMap[type_ := children];
      }
    }

    method Cha(t: DIType, firstField: bool) returns (children: set<NodeId>)
      requires Valid()
      modifies this
      ensures Valid() && old(canonicalTypes) <= canonicalTypes
      ensures exists c :: Represents(canonicalTypes, t, c) && c in diTypeToNodeMap &&
                children == Descendants(inEdges, firstField, diTypeToNodeMap[c])
      ensures forall c | c in old(diTypeToNodeMap) ::
              c in diTypeToNodeMap && diTypeToNodeMap[c] == old(diTypeToNodeMap)[c]
      ensures forall m | m in old(inEdges) :: m in inEdges && inEdges[m] == old(inEdges)[m]
    {
      hide Teq, ValidTypes, ValidNodes, ValidCache, Descendants;
      var type_, n := GetOrCreateNode(t);
      children := ChaOfNode(type_, firstField);
    }

    /** Whether `a` is `b` or a transitive base of it; both must have nodes. */
    method IsBase(a: DIType, b: DIType, firstField: bool) returns (r: bool)
      requires Valid()
      requires exists c :: Represents(canonicalTypes, a, c) && c in diTypeToNodeMap
      requires exists c :: Represents(canonicalTypes, b, c) && c in diTypeToNodeMap
      modifies this
      ensures Valid() && inEdges == old(inEdges) && diTypeToNodeMap == old(diTypeToNodeMap)
      ensures exists ca, cb :: Represents(canonicalTypes, a, ca) && Represents(canonicalTypes, b, cb) &&
                ca in diTypeToNodeMap && cb in diTypeToNodeMap &&
                r == Descends(inEdges, firstField, diTypeToNodeMap[ca], diTypeToNodeMap[cb])
    {
      hide Represents, Representatives, Acyclic, CacheOk, Descendants, Remembers;
      ghost var wa :| Represents(canonicalTypes, a, wa) && wa in diTypeToNodeMap;
      ghost var wb :| Represents(canonicalTypes, b, wb) && wb in diTypeToNodeMap;
      var ca := GetCanonicalType(a);
      var cb := GetCanonicalType(b);
      UniqueRepresentative(canonicalTypes, a, ca, wa);
      UniqueRepresentative(canonicalTypes, b, cb, wb);
      assert canonicalTypes == old(canonicalTypes);
      var aChildren := ChaOfNode(ca, firstField);
      r := diTypeToNodeMap[cb] in aChildren;
      DescendantsIn(inEdges, firstField, diTypeToNodeMap[ca], diTypeToNodeMap[cb]);
    }
  }

  lemma DescendantsIn(g: InEdges, firstField: bool, n: NodeId, m: NodeId)
    requires m in g
    ensures m in Descendants(g, firstField, n) <==> Descends(g, firstField, n, m)
  {
  }

  lemma CachedAnswer(g: InEdges, nodes: map<DIType, NodeId>, firstField: bool, cache: map<DIType, set<NodeId>>,
                     t: DIType)
    requires CacheOk(g, nodes, firstField, cache) && t in nodes
    ensures t in cache ==> cache[t] == Descendants(g, firstField, nodes[t])
  {
  }

  lemma CacheAnswer(g: InEdges, nodes: map<DIType, NodeId>, firstField: bool, cache: map<DIType, set<NodeId>>,
                    t: DIType,
                    answer: set<NodeId>)
    requires CacheOk(g, nodes, firstField, cache) && t in nodes && answer == Descendants(g, firstField, nodes[t])
    ensures CacheOk(g, nodes, firstField, cache[t := answer])
  {
  }

  /** The node at the source of an edge that can be followed comes earlier. */
  lemma ChildNode(reps: set<DIType>, nodes: map<DIType, NodeId>, types: map<NodeId, DIType>, g: InEdges, next: nat,
                  rank: map<NodeId, nat>, n: NodeId, e: InEdge)
    requires NodesOk(reps, nodes, types, g, next) && Acyclic(g, rank) && n in g && e in g[n]
    ensures e.src in types && types[e.src] in nodes && nodes[types[e.src]] == e.src && n in rank && e.src in rank
    ensures Followed(e.kind, true) ==> rank[e.src] < rank[n]
  {
  }

  /** What the followed edges in `es` lead to. */
  ghost function DescendantsOf(g: InEdges, firstField: bool, es: seq<InEdge>): set<NodeId> {
    set m | m in g && exists e :: e in es && Followed(e.kind, firstField) && Descends(g, firstField, e.src, m)
  }

  lemma DescendantsOfNone(g: InEdges, firstField: bool)
    ensures DescendantsOf(g, firstField, []) == {}
  {
  }

  lemma DescendantsOfMore(g: InEdges, firstField: bool, es: seq<InEdge>, k: nat)
    requires k < |es|
    ensures DescendantsOf(g, firstField, es[..k + 1]) ==
            DescendantsOf(g, firstField, es[..k]) +
            if Followed(es[k].kind, firstField) then Descendants(g, firstField, es[k].src) else {}
  {
  }

  lemma DescendantsByChildren(g: InEdges, rank: map<NodeId, nat>, firstField: bool, n: NodeId)
    requires Acyclic(g, rank) && n in g
    ensures Descendants(g, firstField, n) == {n} + DescendantsOf(g, firstField, g[n])
  {
    forall m | m in g
      ensures m in Descendants(g, firstField, n) <==> m == n || m in DescendantsOf(g, firstField, g[n])
    {
      DescendsFirstStep(g, firstField, n, m);
    }
  }

  lemma DescendantsBeforeNewNode(g: InEdges, g': InEdges, firstField: bool, extra: NodeId, n: NodeId)
    requires g' == g[extra := []] && extra !in g && n in g && Simple(g)
    ensures Descendants(g, firstField, n) == Descendants(g', firstField, n)
  {
    forall m ensures Descends(g, firstField, n, m) <==> Descends(g', firstField, n, m) {
      DescendsBeforeNewNode(g, g', firstField, extra, n, m);
    }
    if Descends(g, firstField, n, extra) { DescendsInside(g, firstField, n, extra); }
  }

  lemma {:induction false} PathInside(g: InEdges, firstField: bool, path: seq<NodeId>)
    requires Simple(g) && IsPath(g, firstField, path) && path[0] in g
    ensures path[|path| - 1] in g
    decreases |path|
  {
    if |path| > 1 {
      assert ChildStep(g, firstField, path[0], path[1]);
      assert IsPath(g, firstField, path[1..]);
      PathInside(g, firstField, path[1..]);
    }
  }

  lemma DescendsInside(g: InEdges, firstField: bool, n: NodeId, m: NodeId)
    requires Simple(g) && n in g && Descends(g, firstField, n, m)
    ensures m in g
  {
    var path :| IsPath(g, firstField, path) && path[0] == n && path[|path| - 1] == m;
    PathInside(g, firstField, path);
  }

  // ---------- a new edge ----------

  lemma NodesHaveEdges(reps: set<DIType>, nodes: map<DIType, NodeId>, types: map<NodeId, DIType>, g: InEdges,
                       next: nat, t: DIType)
    requires NodesOk(reps, nodes, types, g, next) && t in nodes
    ensures nodes[t] in g && Simple(g)
  {
  }

  lemma StillRepresents(reps: set<DIType>, reps': set<DIType>, t: DIType, r: DIType)
    requires reps <= reps' && Represents(reps, t, r)
    ensures Represents(reps', t, r)
  {
  }

  /** `g'` has the edges of `g`, and perhaps more nodes, without edges. */
  ghost predicate MoreNodes(g: InEdges, g': InEdges) {
    && (forall n | n in g :: n in g' && g'[n] == g[n])
    && forall n | n in g' && n !in g :: g'[n] == []
  }

  ghost function WithEdge(g: InEdges, src: NodeId, dst: NodeId, et: EdgeKind): InEdges
    requires dst in g
  {
    if InEdge(src, et) in g[dst] then g else g[dst := g[dst] + [InEdge(src, et)]]
  }

  /** Instance edges change no descendants. */
  lemma InstanceEdgesIgnored(g: InEdges, src: NodeId, dst: NodeId, firstField: bool, n: NodeId)
    requires dst in g
    ensures Descendants(WithEdge(g, src, dst, Instance), firstField, n) == Descendants(g, firstField, n)
  {
    var g' := WithEdge(g, src, dst, Instance);
    forall a, b ensures ChildStep(g', firstField, a, b) <==> ChildStep(g, firstField, a, b) {
      ChildStepIs(g, firstField, a, b);
      ChildStepIs(g', firstField, a, b);
    }
    hide ChildStep;
    forall path | IsPath(g, firstField, path) ensures IsPath(g', firstField, path) {}
    forall path | IsPath(g', firstField, path) ensures IsPath(g, firstField, path) {}
    forall m ensures Descends(g', firstField, n, m) <==> Descends(g, firstField, n, m) {}
  }

  /** An edge that can be followed must not lead to where it comes from. */
  ghost predicate NoCycle(g: InEdges, src: NodeId, dst: NodeId, et: EdgeKind)
    requires dst in g
  {
    InEdge(src, et) in g[dst] || (Followed(et, true) ==> !Descends(g, true, src, dst))
  }

  /** Ranks for the graph with the edge: what descends to `dst` is moved above `src`. */
  ghost function Lifted(g: InEdges, rank: map<NodeId, nat>, src: NodeId, dst: NodeId, et: EdgeKind): map<NodeId, nat>
    requires src in rank
  {
    map n | n in rank :: if Followed(et, true) && Descends(g, true, n, dst) then rank[n] + rank[src] + 1 else rank[n]
  }

  lemma EdgeAdded(reps: set<DIType>, nodes: map<DIType, NodeId>, types: map<NodeId, DIType>, g: InEdges, next: nat,
                  rank: map<NodeId, nat>, src: NodeId, dst: NodeId, et: EdgeKind)
    requires NodesOk(reps, nodes, types, g, next) && src in g && dst in g
    ensures NodesOk(reps, nodes, types, WithEdge(g, src, dst, et), next)
    ensures Acyclic(g, rank) ==> src in rank
    ensures Acyclic(g, rank) && NoCycle(g, src, dst, et) && InEdge(src, et) !in g[dst] ==>
              Acyclic(WithEdge(g, src, dst, et), Lifted(WithEdge(g, src, dst, et), rank, src, dst, et))
  {
    EdgeKeepsSimple(g, src, dst, et);
    if Acyclic(g, rank) && NoCycle(g, src, dst, et) && InEdge(src, et) !in g[dst] {
      EdgeKeepsAcyclic(g, rank, src, dst, et);
    }
  }

  lemma EdgeKeepsSimple(g: InEdges, src: NodeId, dst: NodeId, et: EdgeKind)
    requires Simple(g) && src in g && dst in g
    ensures Simple(WithEdge(g, src, dst, et)) && WithEdge(g, src, dst, et).Keys == g.Keys
  {
  }

  /** The graph with a new edge that closes no cycle is acyclic. */
  lemma EdgeKeepsAcyclic(g: InEdges, rank: map<NodeId, nat>, src: NodeId, dst: NodeId, et: EdgeKind)
    requires Acyclic(g, rank) && src in g && dst in g && InEdge(src, et) !in g[dst]
    requires Followed(et, true) ==> !Descends(g, true, src, dst)
    ensures src in rank
    ensures Acyclic(WithEdge(g, src, dst, et), Lifted(WithEdge(g, src, dst, et), rank, src, dst, et))
  {
    var g' := WithEdge(g, src, dst, et);
    var rank' := Lifted(g', rank, src, dst, et);
    if Followed(et, true) {
      DescendsSelf(g', true, dst);
      DescendsSelf(g, true, dst);
      DescendsWithEdge(g, true, src, dst, et, src, dst);
      forall n: NodeId, e: InEdge | n in g' && e in g'[n] && Followed(e.kind, true) ensures rank'[e.src] < rank'[n] {
        if Descends(g', true, e.src, dst) {
          assert ChildStep(g', true, n, e.src);
          DescendsFirstStep(g', true, n, dst);
        }
      }
    } else {
      assert rank' == rank;
    }
  }

  lemma {:induction false} PathWithEdge(g: InEdges, firstField: bool, src: NodeId, dst: NodeId, et: EdgeKind,
                                        path: seq<NodeId>)
    requires dst in g && InEdge(src, et) !in g[dst] && IsPath(WithEdge(g, src, dst, et), firstField, path)
    ensures var n, m := path[0], path[|path| - 1];
            || Descends(g, firstField, n, m)
            || (Followed(et, firstField) && Descends(g, firstField, n, dst) && Descends(g, firstField, src, m))
    decreases |path|
  {
    var g' := WithEdge(g, src, dst, et);
    var n, m := path[0], path[|path| - 1];
    DescendsSelf(g, firstField, n);
    if |path| > 1 {
      var rest := path[1..];
      assert IsPath(g', firstField, rest) && rest[|rest| - 1] == m;
      PathWithEdge(g, firstField, src, dst, et, rest);
      assert ChildStep(g', firstField, n, path[1]);
      if ChildStep(g, firstField, n, path[1]) {
        DescendsFirstStep(g, firstField, n, m);
        DescendsFirstStep(g, firstField, n, dst);
      }
    }
  }

  /** With the edge a node descends to what it descended to before, and if it descends
      to `dst` also to what `src` descends to. */
  lemma DescendsWithEdge(g: InEdges, firstField: bool, src: NodeId, dst: NodeId, et: EdgeKind, n: NodeId, m: NodeId)
    requires dst in g && InEdge(src, et) !in g[dst]
    ensures Descends(WithEdge(g, src, dst, et), firstField, n, m) <==>
              || Descends(g, firstField, n, m)
              || (Followed(et, firstField) && Descends(g, firstField, n, dst) && Descends(g, firstField, src, m))
  {
    var g' := WithEdge(g, src, dst, et);
    if Descends(g', firstField, n, m) {
      var path :| IsPath(g', firstField, path) && path[0] == n && path[|path| - 1] == m;
      PathWithEdge(g, firstField, src, dst, et, path);
    }
    if Descends(g, firstField, n, m) { DescendsStill(g, firstField, src, dst, et, n, m); }
    if Followed(et, firstField) && Descends(g, firstField, n, dst) && Descends(g, firstField, src, m) {
      DescendsStill(g, firstField, src, dst, et, n, dst);
      DescendsStill(g, firstField, src, dst, et, src, m);
      assert InEdge(src, et) in g'[dst];
      assert ChildStep(g', firstField, dst, src);
      DescendsFirstStep(g', firstField, dst, m);
      DescendsTransitive(g', firstField, n, dst, m);
    }
  }

  lemma DescendsStill(g: InEdges, firstField: bool, src: NodeId, dst: NodeId, et: EdgeKind, n: NodeId, m: NodeId)
    requires dst in g && Descends(g, firstField, n, m)
    ensures Descends(WithEdge(g, src, dst, et), firstField, n, m)
  {
    var path :| IsPath(g, firstField, path) && path[0] == n && path[|path| - 1] == m;
    assert IsPath(WithEdge(g, src, dst, et), firstField, path);
  }

  /** Every cached answer that includes `dst` has what `src` descends to already. */
  ghost predicate CacheCovers(g: InEdges, nodes: map<DIType, NodeId>, firstField: bool, cache: map<DIType, set<NodeId>>,
                              src: NodeId, dst: NodeId, et: EdgeKind)
    requires dst in g
  {
    InEdge(src, et) in g[dst] || (Followed(et, firstField) ==>
      forall t | t in cache && t in nodes && Descends(g, firstField, nodes[t], dst) ::
          Descendants(g, firstField, src) <= cache[t])
  }

  lemma DescendantsWithEdge(g: InEdges, firstField: bool, src: NodeId, dst: NodeId, et: EdgeKind, n: NodeId)
    requires dst in g && InEdge(src, et) !in g[dst]
    ensures Descendants(WithEdge(g, src, dst, et), firstField, n) == Descendants(g, firstField, n) +
      if Followed(et, firstField) && Descends(g, firstField, n, dst) then Descendants(g, firstField, src) else {}
  {
    hide Descends;
    forall m | m in g
      ensures m in Descendants(WithEdge(g, src, dst, et), firstField, n) <==>
                m in Descendants(g, firstField, n) ||
                (Followed(et, firstField) && Descends(g, firstField, n, dst) && m in Descendants(g, firstField, src))
    {
      DescendsWithEdge(g, firstField, src, dst, et, n, m);
    }
  }

  /** Adding an edge keeps the cached answers right exactly if each that includes the
      edge's target has all that the source descends to already. */
  lemma CacheKeptIff(reps: set<DIType>, nodes: map<DIType, NodeId>, types: map<NodeId, DIType>, g: InEdges, next: nat,
                     firstField: bool, cache: map<DIType, set<NodeId>>, src: NodeId, dst: NodeId, et: EdgeKind)
    requires NodesOk(reps, nodes, types, g, next) && src in g && dst in g
    ensures CacheOk(g, nodes, firstField, cache) ==>
              (CacheOk(WithEdge(g, src, dst, et), nodes, firstField, cache) <==>
               CacheCovers(g, nodes, firstField, cache, src, dst, et))
  {
    hide Descendants, Descends, NodesOk;
    if CacheOk(g, nodes, firstField, cache) && InEdge(src, et) !in g[dst] {
      forall t | t in cache
        ensures Descendants(WithEdge(g, src, dst, et), firstField, nodes[t]) == cache[t] +
          if Followed(et, firstField) && Descends(g, firstField, nodes[t], dst)
          then Descendants(g, firstField, src) else {}
      {
        DescendantsWithEdge(g, firstField, src, dst, et, nodes[t]);
      }
    }
  }

  /** An edge that comes after a query for its target: the answer lacks the source. */
  lemma EdgeAfterQuery()
    ensures var g: InEdges, nodes := map[0 := [], 1 := []], map[Void := 0, Subroutine(1) := 1];
      var cache := map[Void := {0}];
      CacheOk(g, nodes, false, cache) && !CacheOk(WithEdge(g, 1, 0, Inheritance), nodes, false, cache)
  {
    var g: InEdges := map[0 := [], 1 := []];
    var g' := WithEdge(g, 1, 0, Inheritance);
    DescendsSelf(g, false, 0);
    forall m | Descends(g, false, 0, m) ensures m == 0 { DescendsFirstStep(g, false, 0, m); }
    assert InEdge(1, Inheritance) in g'[0];
    assert ChildStep(g', false, 0, 1);
    DescendsSelf(g', false, 1);
    DescendsFirstStep(g', false, 0, 1);
    assert 1 in Descendants(g', false, 0);
    var cache: map<DIType, set<NodeId>> := map[Void := {0}];
    assert Descendants(g, false, 0) == {0};
    assert Void in cache && cache[Void] != Descendants(g', false, 0);
  }
}
