/** The cached graph search shared by the type-inference queries. Each value is
    visited twice: a first time to schedule its neighbours, a second time, below
    them on the stack, to merge their cached results. */
module TwoPhase {
  import opened WorkLists
  import opened Sequences

  type Node = nat
  type Visit = (Node, bool)

  datatype Graph<!S> = Graph(succ: map<Node, seq<Node>>, own: map<Node, set<S>>) {
    ghost predicate WellFormed() {
      && own.Keys == succ.Keys
      && forall n | n in succ :: forall k | 0 <= k < |succ[n]| :: succ[n][k] in succ
    }
  }

  type Cache<S> = map<Node, set<S>>

  // ---------- what a query should return ----------

  ghost predicate IsPath<S>(g: Graph<S>, blocked: set<Node>, path: seq<Node>) {
    && path != []
    && (forall i | 0 <= i < |path| :: path[i] in g.succ && path[i] !in blocked)
    && forall i | 0 <= i < |path| - 1 :: path[i + 1] in g.succ[path[i]]
  }

  ghost predicate Reaches<S>(g: Graph<S>, blocked: set<Node>, u: Node, v: Node) {
    exists path :: IsPath(g, blocked, path) && path[0] == u && path[|path| - 1] == v
  }

  /** The sites reachable from `u`. */
  ghost function Sites<S>(g: Graph<S>, u: Node): set<S>
    requires g.WellFormed()
  {
    set v, s | v in g.succ && Reaches(g, {}, u, v) && s in g.own[v] :: s
  }

  /** What a query for uncached `u` finds: the sites of all values it reaches
      through uncached ones, and the cached sets next to those. */
  ghost function Collected<S>(g: Graph<S>, cache: Cache<S>, u: Node): set<S>
    requires g.WellFormed()
  {
    (set v, s | v in g.succ && Reaches(g, cache.Keys, u, v) && s in g.own[v] :: s) +
    (set v, c, s | v in g.succ && Reaches(g, cache.Keys, u, v) && c in g.succ[v] && c in cache && s in cache[c] :: s)
  }

  ghost predicate SoundCache<S>(g: Graph<S>, cache: Cache<S>)
    requires g.WellFormed()
  {
    forall n | n in cache :: n in g.succ && cache[n] <= Sites(g, n)
  }

  ghost predicate ExactCache<S>(g: Graph<S>, cache: Cache<S>)
    requires g.WellFormed()
  {
    forall n | n in cache :: n in g.succ && cache[n] == Sites(g, n)
  }

  /** The neighbours of cached values are cached, as they are after any queries. */
  ghost predicate ClosedCache<S>(g: Graph<S>, cache: Cache<S>) {
    forall n, w | n in cache && n in g.succ && w in g.succ[n] :: w in cache
  }

  lemma ReachesSelf<S>(g: Graph<S>, blocked: set<Node>, u: Node)
    requires u in g.succ && u !in blocked
    ensures Reaches(g, blocked, u, u)
  {
    assert IsPath(g, blocked, [u]);
  }

  lemma ReachesStep<S>(g: Graph<S>, blocked: set<Node>, u: Node, v: Node, w: Node)
    requires g.WellFormed() && Reaches(g, blocked, u, v) && v in g.succ && w in g.succ[v] && w !in blocked
    ensures w in g.succ && Reaches(g, blocked, u, w)
  {
    var path :| IsPath(g, blocked, path) && path[0] == u && path[|path| - 1] == v;
    assert IsPath(g, blocked, path + [w]) by {
      forall i | 0 <= i < |path| ensures (path + [w])[i + 1] in g.succ[(path + [w])[i]] {
      }
    }
    assert (path + [w])[0] == u;
  }

  lemma ReachesTransitive<S>(g: Graph<S>, blocked: set<Node>, u: Node, v: Node, w: Node)
    requires Reaches(g, blocked, u, v) && Reaches(g, blocked, v, w)
    ensures Reaches(g, blocked, u, w)
  {
    var p :| IsPath(g, blocked, p) && p[0] == u && p[|p| - 1] == v;
    var q :| IsPath(g, blocked, q) && q[0] == v && q[|q| - 1] == w;
    var r := p + q[1..];
    assert IsPath(g, blocked, r) by {
      forall i | 0 <= i < |r| - 1 ensures r[i + 1] in g.succ[r[i]] {
        if i >= |p| - 1 { assert r[i] == q[i - (|p| - 1)] && r[i + 1] == q[i + 1 - (|p| - 1)]; }
      }
    }
    assert r[0] == u && r[|r| - 1] == w;
  }

  lemma ReachesUnblocked<S>(g: Graph<S>, blocked: set<Node>, u: Node, v: Node)
    requires Reaches(g, blocked, u, v)
    ensures Reaches(g, {}, u, v)
  {
  }

  lemma SitesTransitive<S>(g: Graph<S>, u: Node, v: Node)
    requires g.WellFormed() && Reaches(g, {}, u, v)
    ensures Sites(g, v) <= Sites(g, u)
  {
    forall w, s | w in g.succ && Reaches(g, {}, v, w) && s in g.own[w] ensures s in Sites(g, u) {
      ReachesTransitive(g, {}, u, v, w);
    }
  }

  /** With sound caches a query collects only reachable sites. */
  lemma CollectedSound<S>(g: Graph<S>, cache: Cache<S>, u: Node)
    requires g.WellFormed() && SoundCache(g, cache) && u in g.succ
    ensures Collected(g, cache, u) <= Sites(g, u)
  {
    forall v | v in g.succ && Reaches(g, cache.Keys, u, v) ensures Reaches(g, {}, u, v) {
      ReachesUnblocked(g, cache.Keys, u, v);
    }
    forall v, c, s | v in g.succ && Reaches(g, cache.Keys, u, v) && c in g.succ[v] && c in cache && s in cache[c]
      ensures s in Sites(g, u)
    {
      ReachesStep(g, {}, u, v, c);
      SitesTransitive(g, u, c);
    }
  }

  /** Walking a path from an uncached value, either it stays uncached or it
      enters a cached value next to the uncached part. */
  lemma {:induction false} FirstCached<S>(g: Graph<S>, cache: Cache<S>, path: seq<Node>) returns (v: Node, c: Node)
    requires g.WellFormed() && IsPath(g, {}, path) && path[0] !in cache
    ensures Reaches(g, cache.Keys, path[0], path[|path| - 1]) ||
            (v in g.succ && Reaches(g, cache.Keys, path[0], v) && c in g.succ[v] && c in cache &&
             Reaches(g, {}, c, path[|path| - 1]))
    decreases |path|
  {
    v, c := 0, 0;
    if forall i | 0 <= i < |path| :: path[i] !in cache {
      assert IsPath(g, cache.Keys, path);
    } else {
      var k := FirstIndex(cache, path);
      v, c := path[k - 1], path[k];
      assert IsPath(g, cache.Keys, path[..k]) && path[..k][0] == path[0] && path[..k][|path[..k]| - 1] == v;
      assert IsPath(g, {}, path[k..]) && path[k..][0] == c && path[k..][|path[k..]| - 1] == path[|path| - 1];
    }
  }

  lemma {:induction false} FirstIndex<S>(cache: Cache<S>, path: seq<Node>) returns (k: nat)
    requires path != [] && path[0] !in cache && exists i :: 0 <= i < |path| && path[i] in cache
    ensures 0 < k < |path| && path[k] in cache && forall i | 0 <= i < k :: path[i] !in cache
  {
    k := 0;
    while path[k] !in cache
      invariant k < |path| && forall i | 0 <= i < k :: path[i] !in cache
      invariant exists i :: k <= i < |path| && path[i] in cache
      decreases |path| - k
    {
      k := k + 1;
    }
  }

  /** With sound caches a query misses nothing exactly when the sites behind each
      cached value it runs into are found there or elsewhere. */
  lemma CollectedExactIff<S>(g: Graph<S>, cache: Cache<S>, u: Node)
    requires g.WellFormed() && SoundCache(g, cache) && u in g.succ && u !in cache
    ensures Collected(g, cache, u) == Sites(g, u) <==>
            forall v, c | v in g.succ && Reaches(g, cache.Keys, u, v) && c in g.succ[v] && c in cache ::
              Sites(g, c) <= Collected(g, cache, u)
  {
    CollectedSound(g, cache, u);
    if Collected(g, cache, u) == Sites(g, u) {
      forall v, c | v in g.succ && Reaches(g, cache.Keys, u, v) && c in g.succ[v] && c in cache
        ensures Sites(g, c) <= Collected(g, cache, u)
      {
        ReachesUnblocked(g, cache.Keys, u, v);
        ReachesStep(g, {}, u, v, c);
        SitesTransitive(g, u, c);
      }
    } else {
      var s :| s in Sites(g, u) && s !in Collected(g, cache, u);
      var w :| w in g.succ && Reaches(g, {}, u, w) && s in g.own[w];
      var path :| IsPath(g, {}, path) && path[0] == u && path[|path| - 1] == w;
      var v, c := FirstCached(g, cache, path);
      assert s in Sites(g, c);
    }
  }

  /** Exact caches never make a query miss anything. */
  lemma CollectedExact<S>(g: Graph<S>, cache: Cache<S>, u: Node)
    requires g.WellFormed() && ExactCache(g, cache) && u in g.succ && u !in cache
    ensures Collected(g, cache, u) == Sites(g, u)
  {
    CollectedExactIff(g, cache, u);
    forall v, c, s | v in g.succ && Reaches(g, cache.Keys, u, v) && c in g.succ[v] && c in cache && s in Sites(g, c)
      ensures s in Collected(g, cache, u)
    {
      assert s in cache[c];
    }
  }

  lemma CollectedStep<S>(g: Graph<S>, cache: Cache<S>, u: Node, v: Node)
    requires g.WellFormed() && u in g.succ && u !in cache && v in g.succ[u] && v !in cache && v in g.succ
    ensures Collected(g, cache, v) <= Collected(g, cache, u)
  {
    ReachesSelf(g, cache.Keys, u);
    ReachesStep(g, cache.Keys, u, u, v);
    forall w | w in g.succ && Reaches(g, cache.Keys, v, w) ensures Reaches(g, cache.Keys, u, w) {
      ReachesTransitive(g, cache.Keys, u, v, w);
    }
  }

  /** The values a query for `root` visits. */
  ghost function Region<S>(g: Graph<S>, cached: set<Node>, root: Node): set<Node> {
    set v | v in g.succ && Reaches(g, cached, root, v)
  }

  // ---------- one search ----------

  /** The local state of a search. `start` is the cache it began with; `first`
      and `finished` are the values whose first and second visit was made;
      `parent` and `depth` describe the tree of first pushes. */
  datatype Search<!S> = Search(
    start: Cache<S>,
    root: Node,
    stack: seq<Visit>,
    first: set<Node>,
    finished: set<Node>,
    cache: Cache<S>,
    parent: map<Node, Node>,
    depth: map<Node, nat>)
  {
    ghost function Known(): set<Node> {
      first + Waiting(stack)
    }
  }

  ghost function Waiting(stack: seq<Visit>): set<Node> {
    set x | x in stack && !x.1 :: x.0
  }

  ghost function Second(stack: seq<Visit>): set<Node> {
    set x | x in stack && x.1 :: x.0
  }

  ghost predicate Basics<S>(g: Graph<S>, t: Search<S>) {
    && g.WellFormed()
    && Distinct(t.stack)
    && t.root in g.succ && t.root !in t.start && t.root in t.Known()
    && t.Known() <= Region(g, t.start.Keys, t.root) && t.Known() !! t.start.Keys
    && t.finished <= t.first && Second(t.stack) == t.first - t.finished
    && t.cache.Keys == t.start.Keys + t.finished
    && forall n | n in t.start :: n in t.cache && t.cache[n] == t.start[n]
  }

  /** The neighbours of values visited once are cached or scheduled. */
  ghost predicate Explored<S>(g: Graph<S>, first: set<Node>, scheduled: set<Node>) {
    forall n, i | n in first && n in g.succ && 0 <= i < |g.succ[n]| :: g.succ[n][i] in scheduled
  }

  ghost predicate Tree<S>(g: Graph<S>, root: Node, known: set<Node>, first: set<Node>, parent: map<Node, Node>,
                          depth: map<Node, nat>) {
    && root in depth
    && forall n | n in known && n != root ::
         && n in parent && n in depth && parent[n] in depth && depth[n] == depth[parent[n]] + 1
         && parent[n] in first && parent[n] in g.succ && n in g.succ[parent[n]]
  }

  /** The second visit of a value's parent waits below it on the stack. */
  ghost predicate Ordered(root: Node, parent: map<Node, Node>, stack: seq<Visit>) {
    forall i | 0 <= i < |stack| && stack[i].0 != root ::
      stack[i].0 in parent && (parent[stack[i].0], true) in stack[..i]
  }

  ghost predicate Merged<S>(root: Node, parent: map<Node, Node>, finished: set<Node>, cache: Cache<S>) {
    forall n | n in finished && n != root && n in parent && parent[n] in finished ::
      n in cache && parent[n] in cache && cache[n] <= cache[parent[n]]
  }

  ghost predicate Filled<S>(g: Graph<S>, start: Cache<S>, finished: set<Node>, cache: Cache<S>)
    requires g.WellFormed()
  {
    forall n | n in finished :: n in g.succ && n in cache && FilledEntry(g, start, n, cache[n])
  }

  ghost predicate FilledEntry<S>(g: Graph<S>, start: Cache<S>, n: Node, sources: set<S>)
    requires g.WellFormed() && n in g.succ
  {
    && g.own[n] <= sources <= Collected(g, start, n)
    && forall c | c in g.succ[n] && c in start :: start[c] <= sources
  }

  ghost predicate Shaped<S>(g: Graph<S>, t: Search<S>) {
    && Basics(g, t)
    && Tree(g, t.root, t.Known(), t.first, t.parent, t.depth)
    && Ordered(t.root, t.parent, t.stack)
    && Merged(t.root, t.parent, t.finished, t.cache)
    && Filled(g, t.start, t.finished, t.cache)
  }

  /** In the first visit of `cur`, with its first `k` neighbours looked at. */
  ghost predicate Visiting<S>(g: Graph<S>, t: Search<S>, cur: Node, k: nat) {
    && Shaped(g, t) && cur in g.succ && k <= |g.succ[cur]|
    && cur in t.first && cur !in t.finished
    && Explored(g, t.first - {cur}, t.start.Keys + t.Known())
    && forall i | 0 <= i < k :: g.succ[cur][i] in t.start.Keys + t.Known()
  }

  /** Between two rounds of the search loop. */
  ghost predicate AtRest<S>(g: Graph<S>, t: Search<S>) {
    Shaped(g, t) && Explored(g, t.first, t.start.Keys + t.Known())
  }

  ghost function Start<S>(cache: Cache<S>, root: Node): Search<S> {
    Search(cache, root, [(root, false)], {}, {}, cache, map[], map[root := 0])
  }

  lemma StartRests<S>(g: Graph<S>, cache: Cache<S>, root: Node)
    requires g.WellFormed() && root in g.succ && root !in cache
    ensures AtRest(g, Start(cache, root))
  {
    ReachesSelf(g, cache.Keys, root);
    assert (root, false) in Start(cache, root).stack;
  }

  lemma Snoc(rest: seq<Visit>, x: Visit)
    ensures Waiting(rest + [x]) == Waiting(rest) + (if x.1 then {} else {x.0})
    ensures Second(rest + [x]) == Second(rest) + (if x.1 then {x.0} else {})
    ensures Distinct(rest + [x]) <==> Distinct(rest) && x !in rest
    ensures x !in rest && x.1 ==> x.0 !in Second(rest)
  {
    var s := rest + [x];
    assert forall y :: y in s <==> y in rest || y == x;
    assert forall i | 0 <= i < |rest| :: s[i] == rest[i];
    assert s[|rest|] == x;
  }

  lemma OrderedSnoc(root: Node, parent: map<Node, Node>, rest: seq<Visit>, x: Visit)
    ensures Ordered(root, parent, rest + [x]) <==>
              Ordered(root, parent, rest) && (x.0 != root ==> x.0 in parent && (parent[x.0], true) in rest)
  {
    var s := rest + [x];
    assert s[|rest|] == x && s[..|rest|] == rest;
    forall i | 0 <= i < |rest| ensures s[i] == rest[i] && s[..i] == rest[..i] {
    }
  }

  lemma OrderedMember(root: Node, parent: map<Node, Node>, stack: seq<Visit>, x: Visit)
    requires Ordered(root, parent, stack) && x in stack && x.0 != root
    ensures x.0 in parent && (parent[x.0], true) in stack
  {
  }

  /** Popping a visit that was already made. */
  lemma PopVisited<S>(g: Graph<S>, t: Search<S>, rest: seq<Visit>, x: Visit)
    requires AtRest(g, t) && t.stack == rest + [x] && x.0 in if x.1 then t.finished else t.first
    ensures AtRest(g, t.(stack := rest))
  {
    assert x in t.stack;
    assert x.1 ==> x.0 in Second(t.stack);
    Snoc(rest, x);
    OrderedSnoc(t.root, t.parent, rest, x);
    assert t.Known() == t.(stack := rest).Known();
  }

  /** First visit of `n`: its second visit takes its place. */
  lemma FirstVisit<S>(g: Graph<S>, t: Search<S>, rest: seq<Visit>, n: Node)
    requires AtRest(g, t) && t.stack == rest + [(n, false)] && n !in t.first
    ensures n !in t.cache && (n, true) !in rest
    ensures Visiting(g, t.(stack := rest + [(n, true)], first := t.first + {n}), n, 0)
  {
    var u := t.(stack := rest + [(n, true)], first := t.first + {n});
    Snoc(rest, (n, false));
    Snoc(rest, (n, true));
    OrderedSnoc(t.root, t.parent, rest, (n, false));
    OrderedSnoc(t.root, t.parent, rest, (n, true));
    assert t.Known() == u.Known();
    assert u.first - {n} == t.first;
    assert n !in Second(rest);
  }

  /** A neighbour that is cached, or already waiting, needs nothing. */
  lemma SkipNeighbour<S>(g: Graph<S>, t: Search<S>, cur: Node, k: nat)
    requires Visiting(g, t, cur, k) && k < |g.succ[cur]|
    requires g.succ[cur][k] in t.cache || (g.succ[cur][k], false) in t.stack
    ensures Visiting(g, t, cur, k + 1)
  {
  }

  /** Pushing a neighbour that is not waiting: a new one becomes a child of
      `cur`; one that was visited but is not finished keeps its parent. */
  ghost function Pushed<S>(t: Search<S>, cur: Node, x: Node): Search<S>
    requires cur in t.depth
  {
    if x in t.first then t.(stack := t.stack + [(x, false)])
    else t.(stack := t.stack + [(x, false)], parent := t.parent[x := cur], depth := t.depth[x := t.depth[cur] + 1])
  }

  lemma CurrentHasDepth<S>(g: Graph<S>, t: Search<S>, n: Node)
    requires Shaped(g, t) && n in t.Known()
    ensures n in t.depth && n in g.succ
  {
  }

  lemma PushOrdered<S>(g: Graph<S>, t: Search<S>, cur: Node, x: Node)
    requires Shaped(g, t) && cur in t.first && cur !in t.finished && cur in t.depth
    requires x !in t.cache && (x, false) !in t.stack
    ensures Ordered(t.root, Pushed(t, cur, x).parent, Pushed(t, cur, x).stack)
  {
    hide Tree, Filled, Merged, Region;
    var u := Pushed(t, cur, x);
    OrderedSnoc(u.root, u.parent, t.stack, (x, false));
    if x in t.first {
      assert x in Second(t.stack);
      if x != t.root { OrderedMember(t.root, t.parent, t.stack, (x, true)); }
    } else {
      assert cur in Second(t.stack) && (cur, true) in t.stack;
      forall i | 0 <= i < |t.stack| ensures t.stack[i].0 != x {
        assert t.stack[i] in t.stack;
        assert t.stack[i].1 ==> t.stack[i].0 in Second(t.stack);
      }
    }
  }

  lemma PushTree<S>(g: Graph<S>, t: Search<S>, cur: Node, x: Node)
    requires Shaped(g, t) && cur in t.first && cur in g.succ && x in g.succ[cur] && cur in t.depth && x !in t.cache
    ensures var u := Pushed(t, cur, x);
      && Tree(g, t.root, t.Known() + {x}, t.first, u.parent, u.depth)
      && Merged(t.root, u.parent, t.finished, t.cache)
  {
    hide Ordered, Filled, Region, Distinct, Tree, Merged, Graph.WellFormed;
    PushKeepsTree(g, t.root, t.Known(), t.first, t.parent, t.depth, cur, x);
    if x !in t.first { NewChildMerged(t.root, t.parent, t.finished, t.cache, cur, x); }
  }

  lemma PushKeepsTree<S>(g: Graph<S>, root: Node, known: set<Node>, first: set<Node>, parent: map<Node, Node>,
                         depth: map<Node, nat>, cur: Node, x: Node)
    requires Tree(g, root, known, first, parent, depth) && first <= known
    requires cur in first && cur in g.succ && x in g.succ[cur] && cur in depth
    ensures x in first ==> Tree(g, root, known + {x}, first, parent, depth)
    ensures x !in first ==>
              Tree(g, root, known + {x}, first, parent[x := cur], depth[x := depth[cur] + 1])
  {
  }

  lemma NewChildMerged<S>(root: Node, parent: map<Node, Node>, finished: set<Node>, cache: Cache<S>, cur: Node, x: Node)
    requires Merged(root, parent, finished, cache) && x !in finished
    ensures Merged(root, parent[x := cur], finished, cache)
  {
  }

  lemma PushBasics<S>(g: Graph<S>, t: Search<S>, cur: Node, x: Node)
    requires Shaped(g, t) && cur in t.first && cur in g.succ && x in g.succ[cur] && cur in t.depth
    requires x !in t.cache && (x, false) !in t.stack
    ensures Basics(g, Pushed(t, cur, x)) && Pushed(t, cur, x).Known() == t.Known() + {x}
  {
    hide Ordered, Filled, Distinct, Tree, Merged;
    Snoc(t.stack, (x, false));
    ReachesStep(g, t.start.Keys, t.root, cur, x);
  }

  lemma PushNeighbour<S>(g: Graph<S>, t: Search<S>, cur: Node, k: nat)
    requires Visiting(g, t, cur, k) && k < |g.succ[cur]|
    requires g.succ[cur][k] !in t.cache && (g.succ[cur][k], false) !in t.stack
    ensures cur in t.depth && Visiting(g, Pushed(t, cur, g.succ[cur][k]), cur, k + 1)
  {
    hide Ordered, Filled, Tree, Merged, Basics;
    var x := g.succ[cur][k];
    CurrentHasDepth(g, t, cur);
    PushBasics(g, t, cur, x);
    PushOrdered(g, t, cur, x);
    PushTree(g, t, cur, x);
  }

  /** What the second visit of `n` stores: its own sites and all that is cached
      for its neighbours. */
  ghost function Merge<S>(g: Graph<S>, cache: Cache<S>, n: Node): set<S>
    requires g.WellFormed() && n in g.succ
  {
    g.own[n] + set c, s | c in g.succ[n] && c in cache && s in cache[c] :: s
  }

  lemma MergeFills<S>(g: Graph<S>, t: Search<S>, n: Node)
    requires Shaped(g, t) && n in t.first && n in g.succ && n !in t.start
    ensures FilledEntry(g, t.start, n, Merge(g, t.cache, n))
  {
    ReachesSelf(g, t.start.Keys, n);
    forall c | c in g.succ[n] && c in t.cache ensures t.cache[c] <= Collected(g, t.start, n) {
      if c in t.finished {
        assert FilledEntry(g, t.start, c, t.cache[c]);
        CollectedStep(g, t.start, n, c);
      }
    }
  }

  lemma MergedMore<S>(g: Graph<S>, t: Search<S>, n: Node, cache: Cache<S>)
    requires Shaped(g, t) && n in t.first && n !in t.finished && n in g.succ
    requires n == t.root || (n in t.parent && t.parent[n] !in t.finished)
    requires cache == t.cache[n := Merge(g, t.cache, n)]
    ensures Merged(t.root, t.parent, t.finished + {n}, cache)
  {
    hide Ordered, Filled, Collected, Region;
    forall v | v in t.finished + {n} && v != t.root && v in t.parent && t.parent[v] in t.finished + {n}
      ensures v in cache && t.parent[v] in cache && cache[v] <= cache[t.parent[v]]
    {
      assert v in t.Known();
    }
  }

  ghost function Merging<S>(g: Graph<S>, t: Search<S>, rest: seq<Visit>, n: Node): Search<S>
    requires g.WellFormed() && n in g.succ
  {
    t.(stack := rest, finished := t.finished + {n}, cache := t.cache[n := Merge(g, t.cache, n)])
  }

  /** Second visit of `n`: its children in the tree are finished, its parent is not. */
  lemma SecondVisit<S>(g: Graph<S>, t: Search<S>, rest: seq<Visit>, n: Node)
    requires AtRest(g, t) && t.stack == rest + [(n, true)]
    ensures n in g.succ && n in t.first && n !in t.cache && n !in t.finished
    ensures AtRest(g, Merging(g, t, rest, n))
  {
    hide Ordered, Merged, FilledEntry, Merge, Tree, Region, Collected, Distinct, Waiting, Explored;
    Snoc(rest, (n, true));
    OrderedSnoc(t.root, t.parent, rest, (n, true));
    assert n in Second(t.stack) && n in t.Known();
    CurrentHasDepth(g, t, n);
    if n != t.root {
      assert t.parent[n] in Second(rest);
    }
    var u := Merging(g, t, rest, n);
    MergeFills(g, t, n);
    MergedMore(g, t, n, u.cache);
    assert t.Known() == u.Known();
  }

  // ---------- the end of a search ----------

  lemma {:induction false} RegionFinished<S>(g: Graph<S>, t: Search<S>, path: seq<Node>)
    requires AtRest(g, t) && t.stack == [] && IsPath(g, t.start.Keys, path) && path[0] == t.root
    ensures path[|path| - 1] in t.finished
    decreases |path|
  {
    assert Waiting(t.stack) == {} && Second(t.stack) == {};
    if |path| > 1 {
      var short := path[..|path| - 1];
      assert IsPath(g, t.start.Keys, short) && short[|short| - 1] == path[|path| - 2];
      RegionFinished(g, t, short);
      assert path[|path| - 1] in g.succ[path[|path| - 2]];
    }
  }

  lemma {:induction false} UpTheTree<S>(g: Graph<S>, t: Search<S>, n: Node)
    requires AtRest(g, t) && t.stack == [] && n in t.finished && n in t.depth
    ensures n in t.cache && t.root in t.cache && t.cache[n] <= t.cache[t.root]
    decreases t.depth[n]
  {
    assert Waiting(t.stack) == {} && Second(t.stack) == {};
    if n != t.root {
      UpTheTree(g, t, t.parent[n]);
    }
  }

  /** When the stack is empty the root's entry holds exactly what the query
      should collect. */
  lemma SearchResult<S>(g: Graph<S>, t: Search<S>)
    requires AtRest(g, t) && t.stack == []
    ensures t.root in t.cache && t.cache[t.root] == Collected(g, t.start, t.root)
  {
    assert Waiting(t.stack) == {} && Second(t.stack) == {};
    assert FilledEntry(g, t.start, t.root, t.cache[t.root]);
    forall v | v in g.succ && Reaches(g, t.start.Keys, t.root, v)
      ensures v in t.finished && t.cache[v] <= t.cache[t.root]
    {
      var path :| IsPath(g, t.start.Keys, path) && path[0] == t.root && path[|path| - 1] == v;
      RegionFinished(g, t, path);
      UpTheTree(g, t, v);
    }
    forall s | s in Collected(g, t.start, t.root) ensures s in t.cache[t.root] {
      if v :| v in g.succ && Reaches(g, t.start.Keys, t.root, v) && s in g.own[v] {
        assert FilledEntry(g, t.start, v, t.cache[v]);
      } else {
        var v, c :| v in g.succ && Reaches(g, t.start.Keys, t.root, v) && c in g.succ[v] && c in t.start &&
            s in t.start[c];
        assert FilledEntry(g, t.start, v, t.cache[v]);
      }
    }
  }

  // ---------- the search as a step function ----------

  datatype Config<!S> = Config(stack: seq<Visit>, visited: set<Visit>, cache: Cache<S>)

  /** Pushing `xs` in order, skipping the cached ones and those that wait already. */
  function PushAll(stack: seq<Visit>, cached: set<Node>, xs: seq<Node>): seq<Visit> {
    if xs == [] then stack
    else
      var x := (xs[|xs| - 1], false);
      var before := PushAll(stack, cached, xs[..|xs| - 1]);
      if x.0 in cached || x in before then before else before + [x]
  }

  /** One round of the search loop. */
  ghost function RoundOf<S>(g: Graph<S>, c: Config<S>): Config<S>
    requires g.WellFormed()
  {
    if c.stack == [] then c
    else
      var rest, x := c.stack[..|c.stack| - 1], c.stack[|c.stack| - 1];
      if x in c.visited || x.0 !in g.succ then c.(stack := rest)
      else if x.1 then Config(rest, c.visited + {x}, c.cache[x.0 := Merge(g, c.cache, x.0)])
      else
        var again := if x.0 in c.cache then rest else rest + [(x.0, true)];
        Config(PushAll(again, c.cache.Keys, g.succ[x.0]), c.visited + {x}, c.cache)
  }

  ghost function Rounds<S>(g: Graph<S>, c: Config<S>, n: nat): Config<S>
    requires g.WellFormed()
  {
    if n == 0 then c else RoundOf(g, Rounds(g, c, n - 1))
  }

  /** A query for uncached `root` takes `cache` to `cache'`. */
  ghost predicate RunsTo<S>(g: Graph<S>, cache: Cache<S>, root: Node, cache': Cache<S>)
    requires g.WellFormed()
  {
    exists n: nat :: RunsToIn(g, cache, root, cache', n)
  }

  ghost predicate RunsToIn<S>(g: Graph<S>, cache: Cache<S>, root: Node, cache': Cache<S>, n: nat)
    requires g.WellFormed()
  {
    var c := Rounds(g, Config([(root, false)], {}, cache), n);
    c.stack == [] && c.cache == cache'
  }

  lemma {:induction false} RoundsStop<S>(g: Graph<S>, c: Config<S>, m: nat, n: nat)
    requires g.WellFormed() && m <= n && Rounds(g, c, m).stack == []
    ensures Rounds(g, c, n) == Rounds(g, c, m)
    decreases n - m
  {
    if m < n {
      RoundsStop(g, c, m, n - 1);
    }
  }

  /** The caches after a query are determined by the graph and the caches before. */
  lemma RunsToUnique<S>(g: Graph<S>, cache: Cache<S>, root: Node, c1: Cache<S>, c2: Cache<S>)
    requires g.WellFormed() && RunsTo(g, cache, root, c1) && RunsTo(g, cache, root, c2)
    ensures c1 == c2
  {
    var c := Config([(root, false)], {}, cache);
    var m: nat :| RunsToIn(g, cache, root, c1, m);
    var n: nat :| RunsToIn(g, cache, root, c2, n);
    if m <= n { RoundsStop(g, c, m, n); } else { RoundsStop(g, c, n, m); }
  }

  lemma {:induction false} RoundsAdd<S>(g: Graph<S>, c: Config<S>, m: nat, n: nat)
    requires g.WellFormed()
    ensures Rounds(g, c, m + n) == Rounds(g, Rounds(g, c, m), n)
  {
    if n != 0 { RoundsAdd(g, c, m, n - 1); }
  }

  // ---------- the search itself ----------

  ghost predicate Mirrors<S>(t: Search<S>, stack: seq<Visit>, visited: set<Visit>, cache: Cache<S>) {
    && t.stack == stack && t.cache == cache
    && forall n: Node :: ((n, false) in visited <==> n in t.first) && ((n, true) in visited <==> n in t.finished)
  }

  ghost function VisitsLeft<S>(g: Graph<S>, visited: set<Visit>): set<Visit> {
    (set n | n in g.succ :: (n, false)) + (set n | n in g.succ :: (n, true)) - visited
  }

  class CachedSearch<S(==)> {
    const g: Graph<S>
    var cache: Cache<S>

    constructor (graph: Graph<S>)
      requires graph.WellFormed()
      ensures g == graph && cache == map[]
    {
      g := graph;
      cache := map[];
    }

    ghost predicate Valid()
      reads this
    {
      g.WellFormed() && cache.Keys <= g.succ.Keys
    }

    /** A query for `root`: cached entries stay, and an uncached root gets
        exactly what it should collect from the caches as they were. */
    method Find(root: Node) returns (r: set<S>)
      requires Valid() && root in g.succ
      modifies this
      ensures Valid() && root in cache && r == cache[root]
      ensures forall n | n in old(cache) :: n in cache && cache[n] == old(cache)[n]
      ensures root !in old(cache) ==> r == Collected(g, old(cache), root)
      ensures forall n | n in cache && n !in old(cache) :: cache[n] <= Collected(g, old(cache), n)
      ensures ClosedCache(g, old(cache)) ==> ClosedCache(g, cache)
      ensures if root in old(cache) then cache == old(cache) else RunsTo(g, old(cache), root, cache)
    {
      if root in cache {
        r := cache[root];
        return;
      }
      hide AtRest, Visiting, Collected, Merge, VisitsLeft, Graph.WellFormed, Distinct;
      ghost var t := Start(cache, root);
      StartRests(g, cache, root);
      var workList := new FILOWorkList<Visit>();
      var _ := workList.Push((root, false));
      var visited: set<Visit> := {};
      ghost var rounds, begin := 0, Config(workList.data_list, visited, cache);
      while !workList.Empty()
        invariant workList.Valid() && fresh(workList) && g.WellFormed()
        invariant AtRest(g, t) && Mirrors(t, workList.data_list, visited, cache)
        invariant t.start == old(cache) && t.root == root
        invariant Config(workList.data_list, visited, cache) == Rounds(g, begin, rounds)
        decreases VisitsLeft(g, visited), |workList.data_list|
      {
        visited, t := Round(workList, visited, t);
        rounds := rounds + 1;
      }
      assert RunsToIn(g, old(cache), root, cache, rounds);
      SearchResult(g, t);
      SearchEntries(g, t);
      if ClosedCache(g, old(cache)) { SearchCloses(g, t); }
      r := cache[root];
    }

    /** One round of the search loop. */
    method Round(workList: FILOWorkList<Visit>, visited: set<Visit>, ghost t: Search<S>)
        returns (visited': set<Visit>, ghost u: Search<S>)
      requires workList.Valid() && g.WellFormed() && !workList.Empty()
      requires AtRest(g, t) && Mirrors(t, workList.data_list, visited, cache)
      modifies workList, this
      ensures workList.Valid() && AtRest(g, u) && Mirrors(u, workList.data_list, visited', cache)
      ensures u.start == t.start && u.root == t.root
      ensures VisitsLeft(g, visited') < VisitsLeft(g, visited) ||
              (visited' == visited && |workList.data_list| < old(|workList.data_list|))
      ensures Config(workList.data_list, visited', cache) ==
              RoundOf(g, old(Config(workList.data_list, visited, cache)))
    {
      hide AtRest, Visiting, Collected, Merge, VisitsLeft, Graph.WellFormed, Distinct;
      ghost var stack := workList.data_list;
      var curPair := workList.Pop();
      ghost var rest := workList.data_list;
      assert stack[..|stack| - 1] == rest && stack[|stack| - 1] == curPair;
      TopIsNode(g, t, rest, curPair);
      if curPair in visited {
        PopVisited(g, t, rest, curPair);
        return visited, t.(stack := rest);
      }
      FewerVisits(g, visited, curPair);
      visited' := visited + {curPair};
      var curValue, canUpdate := curPair.0, curPair.1;
      if canUpdate {
        SecondVisit(g, t, rest, curValue);
        u := Merging(g, t, rest, curValue);
        var sources := MergeSources(curValue);
        cache := cache[curValue := sources];
      } else {
        FirstVisit(g, t, rest, curValue);
        u := t.(stack := rest + [(curValue, true)], first := t.first + {curValue});
        if curValue !in cache {
          var _ := workList.Push((curValue, true));
        }
        u := Schedule(workList, curValue, u);
      }
    }

    /** First visit: every neighbour that is not cached is pushed. */
    method Schedule(workList: FILOWorkList<Visit>, curValue: Node, ghost t: Search<S>) returns (ghost u: Search<S>)
      requires g.WellFormed() && workList.Valid() && t.stack == workList.data_list && t.cache == cache
      requires Visiting(g, t, curValue, 0)
      modifies workList
      ensures workList.Valid() && g.WellFormed() && AtRest(g, u)
      ensures u.stack == workList.data_list && u.cache == cache && u.start == t.start && u.root == t.root
      ensures u.first == t.first && u.finished == t.finished
      ensures curValue in g.succ && workList.data_list == PushAll(old(workList.data_list), cache.Keys, g.succ[curValue])
    {
      hide AtRest, Visiting;
      u := t;
      VisitingNode(g, u, curValue, 0);
      var k := 0;
      while k < |g.succ[curValue]|
        invariant k <= |g.succ[curValue]| && workList.Valid() && Visiting(g, u, curValue, k)
        invariant u.stack == workList.data_list && u.cache == cache && u.start == t.start && u.root == t.root
        invariant u.first == t.first && u.finished == t.finished
        invariant workList.data_list == PushAll(old(workList.data_list), cache.Keys, g.succ[curValue][..k])
      {
        assert g.succ[curValue][..k + 1][..k] == g.succ[curValue][..k];
        var pUser := g.succ[curValue][k];
        if pUser !in cache {
          var added := workList.Push((pUser, false));
          if added {
            PushNeighbour(g, u, curValue, k);
            u := Pushed(u, curValue, pUser);
          } else {
            SkipNeighbour(g, u, curValue, k);
          }
        } else {
          SkipNeighbour(g, u, curValue, k);
        }
        k := k + 1;
      }
      assert g.succ[curValue][..k] == g.succ[curValue];
      VisitDone(g, u, curValue);
    }

    /** Second visit: the value's own sites and its neighbours' cached ones. */
    method MergeSources(n: Node) returns (sources: set<S>)
      requires g.WellFormed() && n in g.succ
      ensures sources == Merge(g, cache, n)
    {
      sources := g.own[n];
      var k := 0;
      while k < |g.succ[n]|
        invariant k <= |g.succ[n]|
        invariant sources == g.own[n] + set c, s | c in g.succ[n][..k] && c in cache && s in cache[c] :: s
      {
        var c := g.succ[n][k];
        assert g.succ[n][..k + 1] == g.succ[n][..k] + [c];
        if c in cache {
          sources := sources + cache[c];
        }
        k := k + 1;
      }
      assert g.succ[n][..k] == g.succ[n];
    }
  }

  lemma FewerVisits<S>(g: Graph<S>, visited: set<Visit>, x: Visit)
    requires x.0 in g.succ && x !in visited
    ensures VisitsLeft(g, visited + {x}) < VisitsLeft(g, visited)
  {
    if x.1 {
      assert (x.0, true) in set n | n in g.succ :: (n, true);
    } else {
      assert (x.0, false) in set n | n in g.succ :: (n, false);
    }
    assert x in VisitsLeft(g, visited);
  }

  lemma TopIsNode<S>(g: Graph<S>, t: Search<S>, rest: seq<Visit>, x: Visit)
    requires AtRest(g, t) && t.stack == rest + [x]
    ensures x.0 in g.succ && x.0 !in t.start
    ensures x.1 ==> x.0 in t.first && x.0 !in t.finished
    ensures x.0 in t.finished ==> x.0 in t.first
  {
    assert x in t.stack;
    assert if x.1 then x.0 in Second(t.stack) else x.0 in Waiting(t.stack);
  }

  lemma VisitingNode<S>(g: Graph<S>, t: Search<S>, cur: Node, k: nat)
    requires Visiting(g, t, cur, k)
    ensures g.WellFormed() && cur in g.succ
  {
  }

  lemma VisitDone<S>(g: Graph<S>, t: Search<S>, cur: Node)
    requires Visiting(g, t, cur, if cur in g.succ then |g.succ[cur]| else 0)
    ensures AtRest(g, t)
  {
  }

  lemma SearchEntries<S>(g: Graph<S>, t: Search<S>)
    requires AtRest(g, t)
    ensures t.cache.Keys <= t.start.Keys + g.succ.Keys
    ensures forall n | n in t.start :: n in t.cache && t.cache[n] == t.start[n]
    ensures forall n | n in t.cache && n !in t.start :: n in g.succ && t.cache[n] <= Collected(g, t.start, n)
  {
  }

  /** A query caches all it meets, so that the neighbours of cached values are cached. */
  lemma SearchCloses<S>(g: Graph<S>, t: Search<S>)
    requires AtRest(g, t) && t.stack == [] && ClosedCache(g, t.start)
    ensures ClosedCache(g, t.cache)
  {
    hide Tree, Ordered, Merged, Filled, Region;
    assert Waiting(t.stack) == {} && Second(t.stack) == {};
    forall n, w | n in t.cache && n in g.succ && w in g.succ[n] ensures w in t.cache {
      if n !in t.start {
        var i :| 0 <= i < |g.succ[n]| && g.succ[n][i] == w;
      }
    }
  }
}
