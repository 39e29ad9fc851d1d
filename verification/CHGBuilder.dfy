/** Numbering the virtual functions of the class hierarchy graph, group of
    connected classes by group. */
module CHGBuilder {
  /** A function: where it is in memory, and its name after demangling. */
  datatype Fun = Fun(ptr: nat, name: string)

  /** A class: where its inheritance edges lead and come from, and its vectors of
      virtual functions. */
  datatype Class = Class(outs: seq<nat>, ins: seq<nat>, vfns: seq<seq<Fun>>)

  type Hierarchy = seq<Class>

  ghost predicate WellFormed(h: Hierarchy) {
    && (forall a: nat | a < |h| :: ListsClasses(h, h[a].outs) && ListsClasses(h, h[a].ins))
    && forall a: nat, b: nat | a < |h| && b < |h| :: a in h[b].ins <==> b in h[a].outs
  }

  ghost predicate ListsClasses(h: Hierarchy, nodes: seq<nat>) {
    forall b: nat | b in nodes :: b < |h|
  }

  // ---------- connected classes ----------

  ghost predicate Adjacent(h: Hierarchy, a: nat, b: nat) {
    a < |h| && b < |h| && (b in h[a].outs || b in h[a].ins)
  }

  ghost predicate Linked(h: Hierarchy, a: nat, b: nat, path: seq<nat>) {
    && path != [] && path[0] == a && path[|path| - 1] == b
    && forall k | 0 <= k < |path| - 1 :: Adjacent(h, path[k], path[k + 1])
  }

  /** There is a way from `a` to `b` along edges taken in either direction. */
  ghost predicate Connected(h: Hierarchy, a: nat, b: nat) {
    exists path :: Linked(h, a, b, path)
  }

  ghost predicate IsComponent(h: Hierarchy, a: nat, s: set<nat>) {
    forall b: nat :: b in s <==> b < |h| && Connected(h, a, b)
  }

  ghost predicate ClosedUnder(h: Hierarchy, s: set<nat>) {
    forall a, b | a in s && Adjacent(h, a, b) :: b in s
  }

  lemma ConnectedSelf(h: Hierarchy, a: nat)
    ensures Connected(h, a, a)
  {
    assert Linked(h, a, a, [a]);
  }

  lemma ConnectedStep(h: Hierarchy, a: nat, b: nat, c: nat)
    requires Connected(h, a, b) && Adjacent(h, b, c)
    ensures Connected(h, a, c)
  {
    var path: seq<nat> :| Linked(h, a, b, path);
    assert Linked(h, a, c, path + [c]);
  }

  lemma {:induction false} StaysInside(h: Hierarchy, s: set<nat>, a: nat, b: nat, path: seq<nat>)
    requires ClosedUnder(h, s) && a in s && Linked(h, a, b, path)
    ensures b in s
    decreases |path|
  {
    if |path| > 1 {
      assert Adjacent(h, path[0], path[1]);
      StaysInside(h, s, path[1], b, path[1..]);
    }
  }

  /** A set that is closed both ways, with everything in it connected to `a`, is the
      component of `a`. */
  lemma ClosedIsComponent(h: Hierarchy, a: nat, s: set<nat>)
    requires a in s && ClosedUnder(h, s) && forall b | b in s :: b < |h| && Connected(h, a, b)
    ensures IsComponent(h, a, s)
  {
    forall b: nat | Connected(h, a, b) ensures b in s {
      var path: seq<nat> :| Linked(h, a, b, path);
      StaysInside(h, s, a, b, path);
    }
  }

  /** Being adjacent has no direction, so what lies outside a closed set is closed
      as well. */
  lemma NotFromOutside(h: Hierarchy, s: set<nat>, a: nat, b: nat)
    requires WellFormed(h) && ClosedUnder(h, s) && a !in s && Adjacent(h, a, b)
    ensures b !in s
  {
  }

  // ---------- names ----------

  /** The order of strings. */
  predicate StringLess(s: string, t: string) {
    t != [] && (s == [] || s[0] < t[0] || (s[0] == t[0] && StringLess(s[1..], t[1..])))
  }

  lemma {:induction false} StringLessTotal(s: string, t: string)
    ensures s == t || StringLess(s, t) || StringLess(t, s)
    ensures !(StringLess(s, t) && StringLess(t, s)) && (s == t ==> !StringLess(s, t))
  {
    if s != [] && t != [] {
      StringLessTotal(s[1..], t[1..]);
      assert s == [s[0]] + s[1..] && t == [t[0]] + t[1..];
    }
  }

  lemma {:induction false} StringLessTransitive(s: string, t: string, u: string)
    requires StringLess(s, t) && StringLess(t, u)
    ensures StringLess(s, u)
  {
    if s != [] && s[0] == t[0] == u[0] {
      StringLessTransitive(s[1..], t[1..], u[1..]);
    }
  }

  /** Strings are ordered by the first character in which they differ, and a string comes
      after its own beginnings. */
  lemma {:induction false} StringLessIff(s: string, t: string)
    ensures StringLess(s, t) <==>
              (s < t || exists k :: 0 <= k < |s| && k < |t| && s[..k] == t[..k] && s[k] < t[k])
  {
    if s != [] && t != [] && s[0] == t[0] {
      StringLessIff(s[1..], t[1..]);
      if k :| 0 <= k < |s| && k < |t| && s[..k] == t[..k] && s[k] < t[k] {
        assert s[1..][..k - 1] == s[..k][1..] && t[1..][..k - 1] == t[..k][1..];
      }
      if k :| 0 <= k < |s| - 1 && k < |t| - 1 && s[1..][..k] == t[1..][..k] && s[1..][k] < t[1..][k] {
        assert s[..k + 1] == [s[0]] + s[1..][..k] && t[..k + 1] == [t[0]] + t[1..][..k];
      }
    } else if s != [] && t != [] && s[0] < t[0] {
      assert s[..0] == t[..0];
    } else if s != [] && t != [] {
      forall k | 0 <= k < |s| && k < |t| && s[..k] == t[..k] ensures k == 0 {
        if k > 0 { SamePrefix(s, t, k); }
      }
    }
  }

  lemma SamePrefix(s: string, t: string, k: nat)
    requires 0 < k <= |s| && k <= |t| && s[..k] == t[..k]
    ensures s[0] == t[0]
  {
    assert s[..k][0] == t[..k][0];
  }

  /** The order of pairs of name and function. */
  predicate Before(f: Fun, g: Fun) {
    StringLess(f.name, g.name) || (f.name == g.name && f.ptr < g.ptr)
  }

  lemma BeforeTotal(f: Fun, g: Fun)
    ensures f == g || Before(f, g) || Before(g, f)
    ensures !(Before(f, g) && Before(g, f)) && !Before(f, f)
  {
    StringLessTotal(f.name, g.name);
    StringLessTotal(f.name, f.name);
  }

  lemma BeforeTransitive(f: Fun, g: Fun, k: Fun)
    requires Before(f, g) && Before(g, k)
    ensures Before(f, k)
  {
    if StringLess(f.name, g.name) && StringLess(g.name, k.name) {
      StringLessTransitive(f.name, g.name, k.name);
    }
  }

  /** How many functions of the group come before `f`. */
  ghost function Rank(fs: set<Fun>, f: Fun): nat {
    |Below(fs, f)|
  }

  ghost function Below(fs: set<Fun>, f: Fun): set<Fun> {
    set x | x in fs && Before(x, f)
  }

  lemma RankOrder(fs: set<Fun>, f: Fun, g: Fun)
    requires f in fs && Before(f, g)
    ensures Rank(fs, f) < Rank(fs, g)
  {
    forall x | x in Below(fs, f) ensures x in Below(fs, g) { BeforeTransitive(x, f, g); }
    BeforeTotal(f, f);
    assert f in Below(fs, g) && f !in Below(fs, f);
    Larger(Below(fs, f), Below(fs, g), f);
  }

  lemma Larger<T>(a: set<T>, b: set<T>, x: T)
    requires a <= b && x in b && x !in a
    ensures |a| < |b|
  {
    assert b == (b - {x}) + {x};
    AtMost(a, b - {x});
  }

  lemma {:induction false} AtMost<T>(a: set<T>, b: set<T>)
    requires a <= b
    ensures |a| <= |b|
  {
    if a != {} {
      var x :| x in a;
      AtMost(a - {x}, b - {x});
    }
  }

  /** Within a group the ranks number the functions one by one, and functions of
      one name without a gap. */
  lemma RanksAreConsecutive(fs: set<Fun>, f: Fun, g: Fun)
    requires f in fs && g in fs
    ensures Rank(fs, f) < |fs| && (Rank(fs, f) == Rank(fs, g) ==> f == g)
    ensures f.name == g.name ==>
              forall x | x in fs && Rank(fs, f) <= Rank(fs, x) <= Rank(fs, g) :: x.name == f.name
  {
    BeforeTotal(f, f);
    Larger(Below(fs, f), fs, f);
    BeforeTotal(f, g);
    if Before(f, g) { RankOrder(fs, f, g); }
    if Before(g, f) { RankOrder(fs, g, f); }
    if f.name == g.name {
      forall x | x in fs && Rank(fs, f) <= Rank(fs, x) <= Rank(fs, g) ensures x.name == f.name {
        NotOutside(fs, f, g, x);
      }
    }
  }

  lemma NotOutside(fs: set<Fun>, f: Fun, g: Fun, x: Fun)
    requires f in fs && g in fs && x in fs && f.name == g.name
    requires Rank(fs, f) <= Rank(fs, x) <= Rank(fs, g)
    ensures x.name == f.name
  {
    StringLessTotal(x.name, f.name);
    if StringLess(x.name, f.name) {
      RankOrder(fs, x, f);
    } else if StringLess(f.name, x.name) {
      RankOrder(fs, g, x);
    }
  }

  // ---------- one group ----------

  ghost function FunsOf(h: Hierarchy, s: set<nat>): set<Fun> {
    set c, v, f | c in s && c < |h| && v in h[c].vfns && f in v :: f
  }

  /** `f` stands in a vector of virtual functions of class `c`. */
  ghost predicate InVectors(h: Hierarchy, c: nat, f: Fun) {
    c < |h| && exists i, j :: 0 <= i < |h[c].vfns| && 0 <= j < |h[c].vfns[i]| && h[c].vfns[i][j] == f
  }

  lemma FunsOfIff(h: Hierarchy, s: set<nat>, f: Fun)
    ensures f in FunsOf(h, s) <==> exists c :: c in s && InVectors(h, c, f)
  {
    if c :| c in s && InVectors(h, c, f) {
      var i, j :| 0 <= i < |h[c].vfns| && 0 <= j < |h[c].vfns[i]| && h[c].vfns[i][j] == f;
      assert h[c].vfns[i] in h[c].vfns && f in h[c].vfns[i];
    }
    if f in FunsOf(h, s) {
      var c, v :| c in s && c < |h| && v in h[c].vfns && f in v;
      var i :| 0 <= i < |h[c].vfns| && h[c].vfns[i] == v;
      var j :| 0 <= j < |v| && v[j] == f;
      assert InVectors(h, c, f);
    }
  }

  /** The search from `root` when `visited` has grown from `before`. */
  ghost predicate Searching(h: Hierarchy, root: nat, before: set<nat>, visited: set<nat>, group: set<nat>,
                            stack: seq<nat>)
  {
    && before <= visited && root in group
    && (forall n | n in visited - before :: n in group)
    && (forall n | n in group :: n < |h| && Connected(h, root, n) && (n in visited - before || n in stack))
    && (forall n | n in stack :: n < |h| && Connected(h, root, n))
    && (forall a, b | a in visited - before && Adjacent(h, a, b) :: b in group)
  }

  /** Everything connected to a class outside a closed set is outside as well. */
  lemma {:induction false} OutsideStays(h: Hierarchy, s: set<nat>, a: nat, b: nat, path: seq<nat>)
    requires WellFormed(h) && ClosedUnder(h, s) && a !in s && Linked(h, a, b, path)
    ensures b !in s
    decreases |path|
  {
    if |path| > 1 {
      assert Adjacent(h, path[0], path[1]);
      NotFromOutside(h, s, path[0], path[1]);
      OutsideStays(h, s, path[1], b, path[1..]);
    }
  }

  lemma ConnectedOutside(h: Hierarchy, s: set<nat>, a: nat, b: nat)
    requires WellFormed(h) && ClosedUnder(h, s) && a !in s && Connected(h, a, b)
    ensures b !in s
  {
    var path: seq<nat> :| Linked(h, a, b, path);
    OutsideStays(h, s, a, b, path);
  }

  lemma SearchEnds(h: Hierarchy, root: nat, before: set<nat>, visited: set<nat>, group: set<nat>)
    requires Searching(h, root, before, visited, group, []) && ClosedUnder(h, before)
    ensures IsComponent(h, root, group) && visited == before + group && ClosedUnder(h, visited)
  {
    ClosedIsComponent(h, root, group);
  }

  ghost function Classes(n: nat): (r: set<nat>)
    ensures forall x: nat :: x in r <==> x < n
  {
    if n == 0 then {} else Classes(n - 1) + {n - 1}
  }

  lemma NeighboursAre(h: Hierarchy, cur: nat)
    requires WellFormed(h) && cur < |h|
    ensures forall b: nat | b in h[cur].outs + h[cur].ins :: b < |h| && Adjacent(h, cur, b)
    ensures forall b | Adjacent(h, cur, b) :: b in h[cur].outs + h[cur].ins
  {
  }

  /** A class that is already visited is dropped from the stack. */
  lemma SearchDrops(h: Hierarchy, root: nat, before: set<nat>, visited: set<nat>, group: set<nat>, stack: seq<nat>,
                    cur: nat)
    requires WellFormed(h) && ClosedUnder(h, before) && root !in before
    requires Searching(h, root, before, visited, group, stack + [cur]) && cur in visited
    ensures Searching(h, root, before, visited, group + {cur}, stack)
  {
    assert cur in stack + [cur];
    ConnectedOutside(h, before, root, cur);
  }

  /** A new class is visited and its neighbours are pushed. */
  lemma SearchVisits(h: Hierarchy, root: nat, before: set<nat>, visited: set<nat>, group: set<nat>, stack: seq<nat>,
                     cur: nat)
    requires WellFormed(h) && Searching(h, root, before, visited, group, stack + [cur]) && cur !in visited && cur < |h|
    ensures Searching(h, root, before, visited + {cur},
                      group + {cur} + Elements(h[cur].outs) + Elements(h[cur].ins),
                      stack + h[cur].outs + h[cur].ins)
  {
    assert cur in stack + [cur];
    NeighboursAre(h, cur);
    hide WellFormed;
    forall b: nat | b in h[cur].outs + h[cur].ins
      ensures b < |h| && Connected(h, root, b)
    {
      ConnectedStep(h, root, cur, b);
    }
    var group' := group + {cur} + Elements(h[cur].outs) + Elements(h[cur].ins);
    var stack' := stack + h[cur].outs + h[cur].ins;
    forall n: nat | n in stack' ensures n < |h| && Connected(h, root, n) {
      assert n in stack + [cur] || n in h[cur].outs + h[cur].ins;
    }
    forall n: nat | n in group'
      ensures n < |h| && Connected(h, root, n) && (n in visited + {cur} - before || n in stack')
    {
      assert n in group || n == cur || n in h[cur].outs + h[cur].ins;
    }
    forall a: nat, b: nat | a in visited + {cur} - before && Adjacent(h, a, b) ensures b in group' {
      if a == cur { assert b in h[cur].outs + h[cur].ins; }
    }
  }

  ghost function Elements(nodes: seq<nat>): set<nat> {
    set b | b in nodes
  }

  /** Pushes all of `nodes` and puts them into the group. */
  method PushAll(nodes: seq<nat>, nodeStack: seq<nat>, group: set<nat>) returns (stack: seq<nat>, grown: set<nat>)
    ensures stack == nodeStack + nodes && grown == group + Elements(nodes)
  {
    stack, grown := nodeStack, group;
    var k := 0;
    while k < |nodes|
      invariant k <= |nodes| && stack == nodeStack + nodes[..k] && grown == group + Elements(nodes[..k])
    {
      stack := stack + [nodes[k]];
      grown := grown + {nodes[k]};
      k := k + 1;
    }
    assert nodes[..k] == nodes;
  }

  /** The stack loop that gathers the classes of one group. */
  method CollectGroup(h: Hierarchy, node: nat, visitedNodes: set<nat>) returns (group: set<nat>, visited: set<nat>)
    requires WellFormed(h) && node < |h| && node !in visitedNodes && ClosedUnder(h, visitedNodes)
    ensures IsComponent(h, node, group) && group !! visitedNodes
    ensures visited == visitedNodes + group && ClosedUnder(h, visited)
  {
    hide WellFormed, Searching, ClosedUnder, IsComponent;
    visited := visitedNodes;
    var nodeStack := [node];
    group := {};
    SearchStarts(h, node, visitedNodes);
    ghost var all := Classes(|h|);
    while nodeStack != []
      invariant Searching(h, node, visitedNodes, visited, group + {node}, nodeStack)
      invariant node in group || (nodeStack == [node] && group == {})
      decreases |all - visited|, |nodeStack|
    {
      var curnode := nodeStack[|nodeStack| - 1];
      assert nodeStack == nodeStack[..|nodeStack| - 1] + [curnode];
      OnStack(h, node, visitedNodes, visited, group + {node}, nodeStack, curnode);
      nodeStack := nodeStack[..|nodeStack| - 1];
      ghost var before := visited;
      if curnode in visited {
        SearchDrops(h, node, visitedNodes, visited, group + {node}, nodeStack, curnode);
        assert group + {node} + {curnode} == group + {curnode} + {node};
        group := group + {curnode};
        continue;
      }
      SearchVisits(h, node, visitedNodes, visited, group + {node}, nodeStack, curnode);
      assert group + {node} + {curnode} + Elements(h[curnode].outs) + Elements(h[curnode].ins)
        == group + {curnode} + Elements(h[curnode].outs) + Elements(h[curnode].ins) + {node};
      group := group + {curnode};
      nodeStack, group := PushAll(h[curnode].outs, nodeStack, group);
      nodeStack, group := PushAll(h[curnode].ins, nodeStack, group);
      visited := visited + {curnode};
      Larger(all - visited, all - before, curnode);
    }
    assert group + {node} == group;
    SearchEnds(h, node, visitedNodes, visited, group);
    ComponentOutside(h, node, visitedNodes, group);
  }

  lemma SearchStarts(h: Hierarchy, root: nat, before: set<nat>)
    requires root < |h|
    ensures Searching(h, root, before, before, {} + {root}, [root])
  {
    ConnectedSelf(h, root);
  }

  lemma OnStack(h: Hierarchy, root: nat, before: set<nat>, visited: set<nat>, group: set<nat>, stack: seq<nat>,
                cur: nat)
    requires Searching(h, root, before, visited, group, stack) && cur in stack
    ensures cur < |h|
  {
  }

  lemma ComponentOutside(h: Hierarchy, root: nat, before: set<nat>, group: set<nat>)
    requires WellFormed(h) && ClosedUnder(h, before) && root !in before && IsComponent(h, root, group)
    ensures group !! before
  {
    forall n | n in group ensures n !in before { ConnectedOutside(h, before, root, n); }
  }

  /** Gathers the functions of all classes of a group. */
  method CollectFunctions(h: Hierarchy, group: set<nat>) returns (virtualFunctions: set<Fun>)
    requires forall c | c in group :: c < |h|
    ensures virtualFunctions == FunsOf(h, group)
    ensures forall f :: f in virtualFunctions <==> exists c :: c in group && InVectors(h, c, f)
  {
    virtualFunctions := {};
    var rest := group;
    while rest != {}
      invariant rest <= group && virtualFunctions == FunsOf(h, group - rest)
    {
      var c :| c in rest;
      var i := 0;
      while i < |h[c].vfns|
        invariant i <= |h[c].vfns|
        invariant forall f :: f in virtualFunctions <==>
                  f in FunsOf(h, group - rest) || exists v :: v in h[c].vfns[..i] && f in v
      {
        var j := 0;
        while j < |h[c].vfns[i]|
          invariant j <= |h[c].vfns[i]|
          invariant forall f :: f in virtualFunctions <==>
                      f in FunsOf(h, group - rest) || (exists v :: v in h[c].vfns[..i] && f in v) ||
                          f in h[c].vfns[i][..j]
        {
          virtualFunctions := virtualFunctions + {h[c].vfns[i][j]};
          j := j + 1;
        }
        assert h[c].vfns[i][..j] == h[c].vfns[i];
        assert h[c].vfns[..i + 1] == h[c].vfns[..i] + [h[c].vfns[i]];
        i := i + 1;
      }
      assert h[c].vfns[..i] == h[c].vfns;
      assert group - (rest - {c}) == (group - rest) + {c};
      rest := rest - {c};
    }
    assert group - rest == group;
    forall f ensures f in virtualFunctions <==> exists c :: c in group && InVectors(h, c, f) {
      FunsOfIff(h, group, f);
    }
  }

  // ---------- numbering ----------

  /** A group with the first of its ids. */
  datatype Group = Group(root: nat, classes: set<nat>, funs: set<Fun>, first: nat)

  ghost predicate GroupOk(h: Hierarchy, g: Group) {
    g.root < |h| && IsComponent(h, g.root, g.classes) && g.funs == FunsOf(h, g.classes)
  }

  ghost predicate InLaterGroup(groups: seq<Group>, k: nat, f: Fun) {
    exists j :: k < j < |groups| && f in groups[j].funs
  }

  /** The groups follow one another in the range of ids, and the id of a function is
      the one from the last group that holds it. */
  ghost predicate Numbered(h: Hierarchy, groups: seq<Group>, ids: map<Fun, nat>, next: nat) {
    RangesOk(h, groups, next) && IdsOk(groups, ids)
  }

  ghost predicate RangesOk(h: Hierarchy, groups: seq<Group>, next: nat) {
    forall k | 0 <= k < |groups| ::
        GroupOk(h, groups[k]) && groups[k].first + |groups[k].funs| == FirstAfter(groups, k, next)
  }

  ghost predicate IdsOk(groups: seq<Group>, ids: map<Fun, nat>) {
    && (forall f | f in ids :: exists k :: 0 <= k < |groups| && f in groups[k].funs)
    && (forall k: nat, f | k < |groups| && f in groups[k].funs :: f in ids)
    && (forall k: nat, f | k < |groups| && f in groups[k].funs && !InLaterGroup(groups, k, f) ::
          ids[f] == groups[k].first + Rank(groups[k].funs, f))
  }

  ghost function FirstAfter(groups: seq<Group>, k: nat, next: nat): nat {
    if k + 1 < |groups| then groups[k + 1].first else next
  }

  lemma {:induction false} FirstsIncrease(h: Hierarchy, groups: seq<Group>, ids: map<Fun, nat>, next: nat, j: nat,
                                          k: nat)
    requires Numbered(h, groups, ids, next) && j < k < |groups|
    ensures groups[j].first + |groups[j].funs| <= groups[k].first
    decreases k - j
  {
    assert FirstAfter(groups, j, next) == groups[j + 1].first;
    if j + 1 < k { FirstsIncrease(h, groups, ids, next, j + 1, k); }
  }

  lemma {:induction false} LastGroupOf(groups: seq<Group>, f: Fun, j: nat) returns (k: nat)
    requires j < |groups| && f in groups[j].funs
    ensures j <= k < |groups| && f in groups[k].funs && !InLaterGroup(groups, k, f)
    decreases |groups| - j
  {
    k := j;
    if InLaterGroup(groups, j, f) {
      var i: nat :| j < i < |groups| && f in groups[i].funs;
      k := LastGroupOf(groups, f, i);
    }
  }

  /** The id of a function lies in the range of the last group that holds it. */
  lemma IdInRange(h: Hierarchy, groups: seq<Group>, ids: map<Fun, nat>, next: nat, f: Fun) returns (k: nat)
    requires Numbered(h, groups, ids, next) && f in ids
    ensures IsLast(groups, k, f) && ids[f] == groups[k].first + Rank(groups[k].funs, f)
    ensures groups[k].first <= ids[f] < groups[k].first + |groups[k].funs|
  {
    hide Rank;
    var j: nat :| j < |groups| && f in groups[j].funs;
    k := LastGroupOf(groups, f, j);
    RanksAreConsecutive(groups[k].funs, f, f);
  }

  /** Distinct functions have distinct ids, whatever groups they are in. */
  lemma DistinctIds(h: Hierarchy, groups: seq<Group>, ids: map<Fun, nat>, next: nat, f: Fun, g: Fun)
    requires Numbered(h, groups, ids, next) && f in ids && g in ids && ids[f] == ids[g]
    ensures f == g
  {
    hide Numbered, Rank;
    var j := IdInRange(h, groups, ids, next, f);
    var k := IdInRange(h, groups, ids, next, g);
    if j < k {
      FirstsIncrease(h, groups, ids, next, j, k);
    } else if k < j {
      FirstsIncrease(h, groups, ids, next, k, j);
    } else {
      RanksAreConsecutive(groups[j].funs, f, g);
    }
  }

  /** Group `k` is the last that holds `f`. */
  ghost predicate IsLast(groups: seq<Group>, k: nat, f: Fun) {
    k < |groups| && f in groups[k].funs && !InLaterGroup(groups, k, f)
  }

  lemma LastIsUnique(groups: seq<Group>, j: nat, k: nat, f: Fun)
    requires IsLast(groups, j, f) && IsLast(groups, k, f)
    ensures j == k
  {
  }

  lemma IdOfLast(h: Hierarchy, groups: seq<Group>, ids: map<Fun, nat>, next: nat, k: nat, f: Fun)
    requires Numbered(h, groups, ids, next) && IsLast(groups, k, f)
    ensures f in ids && ids[f] == groups[k].first + Rank(groups[k].funs, f)
    ensures groups[k].first <= ids[f] < groups[k].first + |groups[k].funs|
  {
    hide Rank;
    RanksAreConsecutive(groups[k].funs, f, f);
  }

  /** A function numbered last in an earlier group has the smaller id. */
  lemma EarlierGroupSmallerId(h: Hierarchy, groups: seq<Group>, ids: map<Fun, nat>, next: nat, j: nat, f: Fun, k: nat,
                              g: Fun)
    requires Numbered(h, groups, ids, next) && IsLast(groups, j, f) && IsLast(groups, k, g) && j < k
    ensures f in ids && g in ids && ids[f] < ids[g]
  {
    hide Numbered, IsLast, Rank;
    IdOfLast(h, groups, ids, next, j, f);
    IdOfLast(h, groups, ids, next, k, g);
    LastIsGroup(groups, k, g);
    FirstsIncrease(h, groups, ids, next, j, k);
  }

  lemma LastIsGroup(groups: seq<Group>, k: nat, f: Fun)
    requires IsLast(groups, k, f)
    ensures k < |groups| && f in groups[k].funs
  {
  }

  /** Within one group names are numbered in their order. */
  lemma NameOrderIsIdOrder(h: Hierarchy, groups: seq<Group>, ids: map<Fun, nat>, next: nat, k: nat, f: Fun, g: Fun)
    requires Numbered(h, groups, ids, next) && IsLast(groups, k, f) && IsLast(groups, k, g) && f.name != g.name
    ensures f in ids && g in ids && (ids[f] <= ids[g] <==> StringLess(f.name, g.name))
  {
    hide Numbered, IsLast, Rank;
    LastIsGroup(groups, k, f);
    LastIsGroup(groups, k, g);
    IdOfLast(h, groups, ids, next, k, f);
    IdOfLast(h, groups, ids, next, k, g);
    StringLessTotal(f.name, g.name);
    if StringLess(f.name, g.name) {
      RankOrder(groups[k].funs, f, g);
    } else {
      RankOrder(groups[k].funs, g, f);
    }
  }

  /** Within one group functions of one name are numbered in the order of their
      addresses. */
  lemma AddressOrderIsIdOrder(h: Hierarchy, groups: seq<Group>, ids: map<Fun, nat>, next: nat, k: nat, f: Fun, g: Fun)
    requires Numbered(h, groups, ids, next) && IsLast(groups, k, f) && IsLast(groups, k, g) && f.name == g.name
    ensures f in ids && g in ids && (ids[f] < ids[g] <==> f.ptr < g.ptr)
  {
    hide Numbered, IsLast, Rank, StringLess;
    LastIsGroup(groups, k, f);
    LastIsGroup(groups, k, g);
    IdOfLast(h, groups, ids, next, k, f);
    IdOfLast(h, groups, ids, next, k, g);
    if f.ptr < g.ptr {
      RankOrder(groups[k].funs, f, g);
    } else if g.ptr < f.ptr {
      RankOrder(groups[k].funs, g, f);
    }
  }

  /** At the end exactly the functions in the vectors of the classes have ids. */
  lemma NumberedIff(h: Hierarchy, groups: seq<Group>, ids: map<Fun, nat>, next: nat, f: Fun)
    requires Numbered(h, groups, ids, next) && Partition(groups, Classes(|h|))
    ensures f in ids <==> exists c: nat :: InVectors(h, c, f)
  {
    hide InVectors, Rank, Numbered, Partition, FunsOf, IsComponent, IsLast;
    if f in ids {
      var k := IdInRange(h, groups, ids, next, f);
      LastIsGroup(groups, k, f);
      FunsAreOf(h, groups, ids, next, k);
      FunsOfIff(h, groups[k].classes, f);
    }
    if c: nat :| InVectors(h, c, f) {
      assert c < |h| by { VectorOfClass(h, c, f); }
      var k := GroupOfClass(groups, Classes(|h|), c);
      FunsAreOf(h, groups, ids, next, k);
      FunsOfIff(h, groups[k].classes, f);
    }
  }

  lemma VectorOfClass(h: Hierarchy, c: nat, f: Fun)
    requires InVectors(h, c, f)
    ensures c < |h|
  {
  }

  lemma FunsAreOf(h: Hierarchy, groups: seq<Group>, ids: map<Fun, nat>, next: nat, k: nat)
    requires Numbered(h, groups, ids, next) && k < |groups|
    ensures groups[k].funs == FunsOf(h, groups[k].classes) && forall f | f in groups[k].funs :: f in ids
    ensures forall c | c in groups[k].classes :: 0 <= c < |h|
  {
    hide FunsOf, Rank;
    assert GroupOk(h, groups[k]);
  }

  /** `x`, numbered last in group `m`, gets an id between those of two functions
      called `name`, numbered last in groups `j` and `k`: it comes after the first in
      its group, before the second in its group, or lies in a group in between. */
  predicate ComesBetween(name: string, j: nat, k: nat, m: nat, x: Fun) {
    j < k && (if m == j then StringLess(name, x.name) else if m == k then StringLess(x.name, name) else j < m < k)
  }

  /** Which functions of another name have an id between those of two functions of
      one name. */
  lemma BetweenIff(h: Hierarchy, groups: seq<Group>, ids: map<Fun, nat>, next: nat, j: nat, f: Fun, k: nat, g: Fun,
                   m: nat, x: Fun)
    requires Numbered(h, groups, ids, next) && IsLast(groups, j, f) && IsLast(groups, k, g) && IsLast(groups, m, x)
    requires f.name == g.name != x.name
    ensures f in ids && g in ids && x in ids && (ids[f] <= ids[x] <= ids[g] <==> ComesBetween(f.name, j, k, m, x))
  {
    hide Numbered, IsLast, StringLess;
    IdOfLast(h, groups, ids, next, j, f);
    IdOfLast(h, groups, ids, next, k, g);
    IdOfLast(h, groups, ids, next, m, x);
    StringLessTotal(f.name, x.name);
    if j < k { EarlierGroupSmallerId(h, groups, ids, next, j, f, k, g); }
    if k < j { EarlierGroupSmallerId(h, groups, ids, next, k, g, j, f); }
    if m < j { EarlierGroupSmallerId(h, groups, ids, next, m, x, j, f); }
    if j < m { EarlierGroupSmallerId(h, groups, ids, next, j, f, m, x); }
    if m < k { EarlierGroupSmallerId(h, groups, ids, next, m, x, k, g); }
    if k < m { EarlierGroupSmallerId(h, groups, ids, next, k, g, m, x); }
    if m == j { NameOrderIsIdOrder(h, groups, ids, next, j, f, x); }
    if m == k { NameOrderIsIdOrder(h, groups, ids, next, k, x, g); }
  }

  /** Two functions of one name that were numbered last in the same group: whatever
      function has its id between theirs has that name, too. */
  lemma SameNameConsecutive(h: Hierarchy, groups: seq<Group>, ids: map<Fun, nat>, next: nat, k: nat, f: Fun, g: Fun,
                            x: Fun)
    requires Numbered(h, groups, ids, next) && IsLast(groups, k, f) && IsLast(groups, k, g) && f.name == g.name
    requires f in ids && g in ids && x in ids && ids[f] <= ids[x] <= ids[g]
    ensures x.name == f.name
  {
    hide Numbered, StringLess, Rank;
    var m := IdInRange(h, groups, ids, next, x);
    if x.name != f.name { BetweenIff(h, groups, ids, next, k, f, k, g, m, x); }
  }

  /** In general, no other name is numbered between two functions of one name exactly
      if no function comes between them in the sense above; in particular if both
      were numbered last in the same group. */
  lemma SameNameConsecutiveIff(h: Hierarchy, groups: seq<Group>, ids: map<Fun, nat>, next: nat, j: nat, f: Fun,
                               k: nat, g: Fun)
    requires Numbered(h, groups, ids, next) && IsLast(groups, j, f) && IsLast(groups, k, g) && f.name == g.name
    ensures f in ids && g in ids
    ensures (forall x | x in ids && ids[f] <= ids[x] <= ids[g] :: x.name == f.name) <==>
            !exists m: nat, x :: IsLast(groups, m, x) && x.name != f.name && ComesBetween(f.name, j, k, m, x)
  {
    hide Numbered, IsLast, ComesBetween, Rank;
    IdOfLast(h, groups, ids, next, j, f);
    IdOfLast(h, groups, ids, next, k, g);
    forall x | x in ids && x.name != f.name
      ensures ids[f] <= ids[x] <= ids[g] <==> exists m: nat :: IsLast(groups, m, x) && ComesBetween(f.name, j, k, m, x)
    {
      var n := IdInRange(h, groups, ids, next, x);
      BetweenIff(h, groups, ids, next, j, f, k, g, n, x);
      forall m: nat | IsLast(groups, m, x) ensures m == n { LastIsUnique(groups, m, n, x); }
    }
    forall m: nat, x | IsLast(groups, m, x) ensures x in ids { IdOfLast(h, groups, ids, next, m, x); }
  }

  /** The functions of a group have got their ids, from `first` on in the order of
      their names; all others keep theirs. */
  ghost predicate Renumbered(ids0: map<Fun, nat>, fs: set<Fun>, first: nat, ids: map<Fun, nat>) {
    && ids.Keys == ids0.Keys + fs
    && (forall f | f in fs :: ids[f] == first + Rank(fs, f))
    && forall f | f in ids0 && f !in fs :: ids[f] == ids0[f]
  }

  class CHGraph {
    var virtualFunctionToIDMap: map<Fun, nat>
    var vfID: nat

    constructor ()
      ensures virtualFunctionToIDMap == map[] && vfID == 0
    {
      virtualFunctionToIDMap, vfID := map[], 0;
    }

    /** Goes through the functions of a group in the order of their names. */
    method NumberGroup(fs: set<Fun>)
      modifies this
      ensures vfID == old(vfID) + |fs|
      ensures Renumbered(old(virtualFunctionToIDMap), fs, old(vfID), virtualFunctionToIDMap)
    {
      hide NumberedBut, IsFirst, Before, Renumbered;
      var fNameSet := fs;
      ghost var numbered: set<Fun> := {};
      NoneNumbered(fs, virtualFunctionToIDMap, vfID);
      while fNameSet != {}
        invariant NumberedBut(fs, numbered, fNameSet, old(virtualFunctionToIDMap), virtualFunctionToIDMap, old(vfID))
        invariant vfID == old(vfID) + |numbered|
      {
        ghost var least := FirstExists(fNameSet);
        FirstIsBefore(fNameSet, least);
        var it :| it in fNameSet && forall g | g in fNameSet :: it == g || Before(it, g);
        FirstIsBefore(fNameSet, it);
        NextNumbered(fs, numbered, fNameSet, old(virtualFunctionToIDMap), virtualFunctionToIDMap, old(vfID), it);
        virtualFunctionToIDMap := virtualFunctionToIDMap[it := vfID];
        vfID := vfID + 1;
        numbered := numbered + {it};
        fNameSet := fNameSet - {it};
      }
      AllNumbered(fs, numbered, old(virtualFunctionToIDMap), virtualFunctionToIDMap, old(vfID));
    }

    /** Every class is put into its group, and the groups are numbered in turn. */
    method BuildVirtualFunctionToIDMap(h: Hierarchy) returns (ghost groups: seq<Group>)
      requires WellFormed(h) && virtualFunctionToIDMap == map[] && vfID == 0
      modifies this
      ensures Numbered(h, groups, virtualFunctionToIDMap, vfID)
      ensures Partition(groups, Classes(|h|)) && RootsIncrease(groups)
    {
      hide WellFormed, Numbered, IsComponent, ClosedUnder, Partition, FunsOf, Rank, Classes, Renumbered, GroupOk;
      groups := [];
      var visitedNodes: set<nat> := {};
      NothingNumbered(h);
      var node: nat := 0;
      while node < |h|
        invariant node <= |h| && Numbered(h, groups, virtualFunctionToIDMap, vfID)
        invariant ClosedUnder(h, visitedNodes) && Partition(groups, visitedNodes)
        invariant RootsIncrease(groups) && forall k | 0 <= k < |groups| :: groups[k].root < node
        invariant Classes(node) <= visitedNodes <= Classes(|h|)
      {
        if node !in visitedNodes {
          ghost var before, ids, next := visitedNodes, virtualFunctionToIDMap, vfID;
          var group;
          group, visitedNodes := CollectGroup(h, node, visitedNodes);
          ComponentMembers(h, node, group);
          var virtualFunctions := CollectFunctions(h, group);
          NumberGroup(virtualFunctions);
          ghost var g := Group(node, group, virtualFunctions, next);
          GroupFound(h, g);
          OneMoreGroup(h, groups, ids, next, g, virtualFunctionToIDMap);
          PartitionGrows(groups, before, g);
          groups := groups + [g];
        }
        assert Classes(node + 1) == Classes(node) + {node};
        node := node + 1;
      }
      assert visitedNodes == Classes(|h|);
    }
  }

  /** `groups` divide `visited` into disjoint parts. */
  ghost predicate Partition(groups: seq<Group>, visited: set<nat>) {
    && (forall n | n in visited :: exists k :: 0 <= k < |groups| && n in groups[k].classes)
    && (forall k | 0 <= k < |groups| :: groups[k].classes <= visited)
    && forall j, k | 0 <= j < k < |groups| :: groups[j].classes !! groups[k].classes
  }

  ghost predicate RootsIncrease(groups: seq<Group>) {
    forall j, k | 0 <= j < k < |groups| :: groups[j].root < groups[k].root
  }

  lemma PartitionGrows(groups: seq<Group>, visited: set<nat>, g: Group)
    requires Partition(groups, visited) && g.classes !! visited
    ensures Partition(groups + [g], visited + g.classes)
  {
    var groups' := groups + [g];
    forall n | n in visited + g.classes ensures exists k :: 0 <= k < |groups'| && n in groups'[k].classes {
      if n in visited {
        var k :| 0 <= k < |groups| && n in groups[k].classes;
        assert n in groups'[k].classes;
      } else {
        assert n in groups'[|groups|].classes;
      }
    }
  }

  lemma ComponentMembers(h: Hierarchy, a: nat, s: set<nat>)
    requires IsComponent(h, a, s)
    ensures forall c | c in s :: c < |h|
  {
  }

  lemma GroupFound(h: Hierarchy, g: Group)
    requires g.root < |h| && IsComponent(h, g.root, g.classes) && g.funs == FunsOf(h, g.classes)
    ensures GroupOk(h, g) && g.root in g.classes
  {
    ConnectedSelf(h, g.root);
  }

  lemma NothingNumbered(h: Hierarchy)
    ensures Numbered(h, [], map[], 0) && ClosedUnder(h, {}) && Partition([], {})
  {
  }

  lemma OneMoreGroup(h: Hierarchy, groups: seq<Group>, ids: map<Fun, nat>, next: nat, g: Group, ids': map<Fun, nat>)
    requires Numbered(h, groups, ids, next) && GroupOk(h, g) && g.first == next
    requires Renumbered(ids, g.funs, next, ids')
    ensures Numbered(h, groups + [g], ids', next + |g.funs|)
  {
    hide IdsOk, GroupOk, Renumbered;
    IdsOfMore(groups, ids, g, ids');
  }

  lemma IdsOfMore(groups: seq<Group>, ids: map<Fun, nat>, g: Group, ids': map<Fun, nat>)
    requires IdsOk(groups, ids) && Renumbered(ids, g.funs, g.first, ids')
    ensures IdsOk(groups + [g], ids')
  {
    hide Rank, InLaterGroup;
    var groups' := groups + [g];
    forall f | f in ids' ensures exists k :: 0 <= k < |groups'| && f in groups'[k].funs {
      if f in g.funs {
        assert f in groups'[|groups|].funs;
      } else {
        var k :| 0 <= k < |groups| && f in groups[k].funs;
        assert f in groups'[k].funs;
      }
    }
    forall k: nat, f | k < |groups'| && f in groups'[k].funs
      ensures f in ids' && (!InLaterGroup(groups', k, f) ==> ids'[f] == groups'[k].first + Rank(groups'[k].funs, f))
    {
      if k < |groups| {
        assert groups'[k] == groups[k];
        StillLast(groups, g, k, f);
      }
    }
  }

  lemma StillLast(groups: seq<Group>, g: Group, k: nat, f: Fun)
    requires k < |groups|
    ensures InLaterGroup(groups, k, f) || f in g.funs ==> InLaterGroup(groups + [g], k, f)
  {
    var groups' := groups + [g];
    assert groups'[|groups|] == g;
    if InLaterGroup(groups, k, f) {
      var j :| k < j < |groups| && f in groups[j].funs;
      assert groups'[j] == groups[j];
    }
  }

  ghost predicate IsFirst(fs: set<Fun>, f: Fun) {
    f in fs && forall g | g in fs :: f == g || Before(f, g)
  }

  lemma {:induction false} FirstExists(fs: set<Fun>) returns (f: Fun)
    requires fs != {}
    ensures IsFirst(fs, f)
  {
    hide Before;
    var x :| x in fs;
    var rest := fs - {x};
    f := x;
    if rest == {} {
      assert fs == rest + {x};
    } else {
      var least := FirstExists(rest);
      BeforeTotal(least, x);
      if Before(least, x) {
        f := least;
      } else {
        forall g | g in fs ensures f == g || Before(f, g) {
          if g != x && g != least { BeforeTransitive(x, least, g); }
        }
      }
    }
  }

  /** Half way through the group `fs`: `rest` is still to be numbered. */
  ghost predicate NumberedBut(fs: set<Fun>, numbered: set<Fun>, rest: set<Fun>, ids0: map<Fun, nat>, ids: map<Fun, nat>,
                              first: nat) {
    && fs == numbered + rest && numbered !! rest
    && (forall f :: f in ids <==> f in ids0 || f in numbered)
    && (forall f, g | f in numbered && g in rest :: Before(f, g))
    && (forall f | f in numbered :: ids[f] == first + Rank(fs, f))
    && forall f | f in ids0 && f !in numbered :: ids[f] == ids0[f]
  }

  lemma NextNumbered(fs: set<Fun>, numbered: set<Fun>, rest: set<Fun>, ids0: map<Fun, nat>, ids: map<Fun, nat>,
                     first: nat, f: Fun)
    requires NumberedBut(fs, numbered, rest, ids0, ids, first) && IsFirst(rest, f)
    ensures NumberedBut(fs, numbered + {f}, rest - {f}, ids0, ids[f := first + |numbered|], first)
    ensures f !in numbered
  {
    hide Before, Rank, Below;
    FirstHasRank(fs, numbered, rest, f);
  }

  lemma FirstIsBefore(fs: set<Fun>, f: Fun)
    ensures IsFirst(fs, f) <==> f in fs && forall g | g in fs :: f == g || Before(f, g)
  {
  }

  lemma NoneNumbered(fs: set<Fun>, ids: map<Fun, nat>, first: nat)
    ensures NumberedBut(fs, {}, fs, ids, ids, first)
  {
  }

  lemma AllNumbered(fs: set<Fun>, numbered: set<Fun>, ids0: map<Fun, nat>, ids: map<Fun, nat>, first: nat)
    requires NumberedBut(fs, numbered, {}, ids0, ids, first)
    ensures numbered == fs && Renumbered(ids0, fs, first, ids)
  {
    assert numbered + {} == numbered;
  }

  /** The first of those left comes right after those numbered already. */
  lemma FirstHasRank(fs: set<Fun>, numbered: set<Fun>, rest: set<Fun>, f: Fun)
    requires fs == numbered + rest && IsFirst(rest, f)
    requires forall x, g | x in numbered && g in rest :: Before(x, g)
    ensures Rank(fs, f) == |numbered|
  {
    hide Before;
    forall x ensures x in Below(fs, f) <==> x in numbered {
      BeforeTotal(x, f);
    }
    assert Below(fs, f) == numbered;
  }

  // ---------- a name that is not numbered consecutively ----------

  /** Two unrelated classes that share a virtual function, as abstract classes share
      the one that stands for pure virtual functions. */
  function SharedFunction(): Hierarchy {
    [Class([], [], [[Fun(0, "f"), Fun(1, "f"), Fun(2, "g")]]), Class([], [], [[Fun(1, "f")]])]
  }

  lemma OnlyItself(a: nat, s: set<nat>)
    requires a < 2 && IsComponent(SharedFunction(), a, s)
    ensures s == {a}
  {
    var h := SharedFunction();
    ConnectedSelf(h, a);
    forall b: nat | Connected(h, a, b) ensures b == a {
      var path: seq<nat> :| Linked(h, a, b, path);
      StaysInside(h, {a}, a, b, path);
    }
  }

  lemma GroupOfClass(groups: seq<Group>, visited: set<nat>, n: nat) returns (k: nat)
    requires Partition(groups, visited) && n in visited
    ensures k < |groups| && n in groups[k].classes
  {
    k :| k < |groups| && n in groups[k].classes;
  }

  lemma RootsApart(groups: seq<Group>, j: nat, k: nat)
    requires RootsIncrease(groups) && j < k < |groups|
    ensures groups[j].root < groups[k].root
  {
  }

  lemma TwoRoots(groups: seq<Group>)
    requires forall k | 0 <= k < |groups| :: groups[k].root < 2 && groups[k].classes == {groups[k].root}
    requires Partition(groups, {0, 1}) && RootsIncrease(groups)
    ensures |groups| == 2 && groups[0].classes == {0} && groups[1].classes == {1}
  {
    hide Partition, RootsIncrease;
    var a := GroupOfClass(groups, {0, 1}, 0);
    var b := GroupOfClass(groups, {0, 1}, 1);
    assert groups[a].root == 0 && groups[b].root == 1;
    if b < a { RootsApart(groups, b, a); }
    if |groups| > 2 {
      RootsApart(groups, 0, 1);
      RootsApart(groups, 1, 2);
    }
  }

  lemma TwoGroups(groups: seq<Group>)
    requires forall k | 0 <= k < |groups| :: GroupOk(SharedFunction(), groups[k])
    requires Partition(groups, {0, 1}) && RootsIncrease(groups)
    ensures |groups| == 2
    ensures groups[0].funs == {Fun(0, "f"), Fun(1, "f"), Fun(2, "g")} && groups[1].funs == {Fun(1, "f")}
  {
    hide FunsOf, IsComponent, Partition, RootsIncrease, SharedFunction;
    assert |SharedFunction()| == 2 by { FunctionsOfEach(); }
    forall k | 0 <= k < |groups| ensures groups[k].root < 2 && groups[k].classes == {groups[k].root} {
      OnlyItself(groups[k].root, groups[k].classes);
    }
    TwoRoots(groups);
    FunctionsOfEach();
  }

  lemma FunctionsOfEach()
    ensures |SharedFunction()| == 2
    ensures FunsOf(SharedFunction(), {0}) == {Fun(0, "f"), Fun(1, "f"), Fun(2, "g")}
    ensures FunsOf(SharedFunction(), {1}) == {Fun(1, "f")}
  {
    var h := SharedFunction();
    assert h[0].vfns[0] in h[0].vfns && h[1].vfns[0] in h[1].vfns;
    assert Fun(0, "f") in h[0].vfns[0] && Fun(1, "f") in h[0].vfns[0] && Fun(2, "g") in h[0].vfns[0];
    assert Fun(1, "f") in h[1].vfns[0];
  }

  lemma LastGroupsOfEach(groups: seq<Group>)
    requires |groups| == 2
    requires groups[0].funs == {Fun(0, "f"), Fun(1, "f"), Fun(2, "g")} && groups[1].funs == {Fun(1, "f")}
    ensures IsLast(groups, 0, Fun(0, "f")) && IsLast(groups, 1, Fun(1, "f")) && IsLast(groups, 0, Fun(2, "g"))
  {
  }

  lemma FBeforeG()
    ensures StringLess("f", "g") && "f" != "g"
  {
    assert "f"[0] < "g"[0];
  }

  /** The shared function gets its last id in the second group, so that `g` is
      numbered between the two functions called `f`. */
  lemma SharedFunctionSplitsName(groups: seq<Group>, ids: map<Fun, nat>, next: nat)
    requires Numbered(SharedFunction(), groups, ids, next)
    requires Partition(groups, {0, 1}) && RootsIncrease(groups)
    ensures Fun(0, "f") in ids && Fun(1, "f") in ids && Fun(2, "g") in ids
    ensures ids[Fun(0, "f")] <= ids[Fun(2, "g")] <= ids[Fun(1, "f")]
  {
    hide GroupOk, IdsOk, Partition, RootsIncrease, StringLess, IsLast, SharedFunction;
    TwoGroups(groups);
    LastGroupsOfEach(groups);
    FBeforeG();
    BetweenIff(SharedFunction(), groups, ids, next, 0, Fun(0, "f"), 1, Fun(1, "f"), 0, Fun(2, "g"));
  }

  lemma SharedFunctionWellFormed()
    ensures WellFormed(SharedFunction()) && Classes(2) == {0, 1}
  {
  }
}
