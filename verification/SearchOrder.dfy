/** When the cached search leaves exact entries for all values it meets, so that
    later queries are exact as well, and when it does not. */
module SearchOrder {
  import opened TwoPhase
  import opened WorkLists
  import opened Sequences

  // ---------- the condition ----------

  /** No value in `within` lies on a cycle of different uncached values. */
  ghost predicate NoCycles<S>(g: Graph<S>, cached: set<Node>, within: set<Node>) {
    forall u, w | u in within && u in g.succ && w in g.succ[u] && w != u && w !in cached :: !Reaches(g, cached, w, u)
  }

  predicate FirstAt(xs: seq<Node>, j: nat)
    requires j < |xs|
  {
    xs[j] !in xs[..j]
  }

  /** `w` is an earlier neighbour of `u` than `c`: when `u` is visited, `w` is pushed
      below `c` and waits until `c` is finished. */
  ghost predicate WaitsBelow<S>(g: Graph<S>, cached: set<Node>, u: Node, i: int, j: int, w: Node, c: Node) {
    && u in g.succ && 0 <= i < j < |g.succ[u]| && g.succ[u][i] == w && g.succ[u][j] == c && FirstAt(g.succ[u], j)
    && w !in cached && c !in cached && c != u
  }

  /** No value waits below one from which it can be reached: there a push would be
      dropped. */
  ghost predicate InOrder<S>(g: Graph<S>, cached: set<Node>, within: set<Node>) {
    forall u, i, j, w, c | u in within && WaitsBelow(g, cached, u, i, j, w, c) :: !Reaches(g, cached, c, w)
  }

  ghost predicate Orderly<S>(g: Graph<S>, cached: set<Node>, within: set<Node>) {
    NoCycles(g, cached, within) && InOrder(g, cached, within)
  }

  // ---------- the stack during a search ----------

  /** What is on the stack, marked and cached. */
  ghost predicate Placed<S>(g: Graph<S>, start: set<Node>, root: Node, stack: seq<Visit>, visited: set<Visit>,
                            cached: set<Node>)
  {
    && g.WellFormed() && Distinct(stack)
    && (forall n :: n in cached <==> n in start || (n, true) in visited)
    && (forall n | (n, true) in visited :: (n, false) in visited && n !in start)
    && (forall x | x in stack :: x.0 in g.succ && x.0 !in start && Reaches(g, start, root, x.0))
    && (forall x | x in stack && x.1 :: (x.0, false) in visited && x !in visited)
    && (forall n | (n, false) in visited && n !in cached :: (n, true) in stack)
  }

  /** Neighbours of a value whose second visit waits are cached or above it; the
      entry at `but` is excepted. */
  ghost predicate Scheduled<S>(g: Graph<S>, stack: seq<Visit>, cached: set<Node>, but: int) {
    forall q | 0 <= q < |stack| && stack[q].1 && q != but :: NeighboursAbove(g, stack, cached, q)
  }

  ghost predicate NeighboursAbove<S>(g: Graph<S>, stack: seq<Visit>, cached: set<Node>, q: int)
    requires 0 <= q < |stack|
  {
    var u := stack[q].0;
    u in g.succ && forall w | w in g.succ[u] && w != u :: w in cached || IsAbove(stack, q, w)
  }

  ghost predicate IsAbove(stack: seq<Visit>, q: int, w: Node) {
    exists p :: q < p < |stack| && 0 <= p && stack[p].0 == w
  }

  /** Everything above a waiting second visit is reachable from its value. */
  ghost predicate Descending<S>(g: Graph<S>, start: set<Node>, stack: seq<Visit>) {
    forall q, p | 0 <= q < p < |stack| && stack[q].1 :: Reaches(g, start, stack[q].0, stack[p].0)
  }

  /** A value waits for a first visit it has had only directly above its second one. */
  ghost predicate OwnNeighbour(stack: seq<Visit>, visited: set<Visit>) {
    forall p | 0 <= p < |stack| && !stack[p].1 && stack[p] in visited :: JustAbove(stack, p)
  }

  ghost predicate JustAbove(stack: seq<Visit>, p: int)
    requires 0 <= p < |stack|
  {
    exists q :: 0 <= q < p && stack[q] == (stack[p].0, true) && forall r | q < r < p :: !stack[r].1
  }

  /** `w` waits below a neighbour of the same value from which `x` is reached. */
  ghost predicate Shadowed<S>(g: Graph<S>, start: set<Node>, root: Node, w: Node, x: Node) {
    exists u, i, j, c :: WaitsBelow(g, start, u, i, j, w, c) && Reaches(g, start, root, u) && Reaches(g, start, c, x)
  }

  ghost predicate Lively(visited: set<Visit>, x: Visit) {
    x.1 || x !in visited
  }

  /** What waits for its first visit waits below everything above it for a reason. */
  ghost predicate Reasons<S>(g: Graph<S>, start: set<Node>, root: Node, stack: seq<Visit>, visited: set<Visit>) {
    forall p, q | 0 <= p < q < |stack| && !stack[p].1 && Lively(visited, stack[p]) && Lively(visited, stack[q]) ::
      Shadowed(g, start, root, stack[p].0, stack[q].0)
  }

  ghost predicate Tidy<S>(g: Graph<S>, start: set<Node>, root: Node, stack: seq<Visit>, visited: set<Visit>,
                          cached: set<Node>) {
    && Placed(g, start, root, stack, visited, cached)
    && Descending(g, start, stack) && OwnNeighbour(stack, visited) && Reasons(g, start, root, stack, visited)
  }

  lemma TidyStart<S>(g: Graph<S>, start: set<Node>, root: Node)
    requires g.WellFormed() && root in g.succ && root !in start
    ensures Tidy(g, start, root, [(root, false)], {}, start) && Scheduled(g, [(root, false)], start, -1)
  {
    ReachesSelf(g, start, root);
  }

  lemma Prefix(rest: seq<Visit>, x: Visit)
    ensures |rest + [x]| == |rest| + 1 && (rest + [x])[|rest|] == x
    ensures forall k | 0 <= k < |rest| :: (rest + [x])[k] == rest[k]
    ensures forall y :: y in rest + [x] <==> y in rest || y == x
  {
  }

  // ---------- one round ----------

  lemma PlacedPop<S>(g: Graph<S>, start: set<Node>, root: Node, rest: seq<Visit>, x: Visit, visited: set<Visit>,
                     cached: set<Node>)
    requires Placed(g, start, root, rest + [x], visited, cached) && x in visited
    ensures Placed(g, start, root, rest, visited, cached) && !x.1
  {
    hide Reaches, Graph.WellFormed;
    Prefix(rest, x);
  }

  lemma JustAbovePrefix(rest: seq<Visit>, x: Visit, p: int)
    requires 0 <= p < |rest|
    ensures JustAbove(rest + [x], p) <==> JustAbove(rest, p)
  {
    Prefix(rest, x);
    if JustAbove(rest + [x], p) {
      var q :| 0 <= q < p && (rest + [x])[q] == ((rest + [x])[p].0, true) && forall r | q < r < p :: !(rest + [x])[r].1;
      assert rest[q] == (rest[p].0, true);
      assert forall r | q < r < p :: !rest[r].1;
    }
    if JustAbove(rest, p) {
      var q :| 0 <= q < p && rest[q] == (rest[p].0, true) && forall r | q < r < p :: !rest[r].1;
      assert (rest + [x])[q] == ((rest + [x])[p].0, true);
    }
  }

  /** Popping an entry keeps what is above others, except for its own value. */
  lemma AbovePop(rest: seq<Visit>, x: Visit, q: int, w: Node)
    requires IsAbove(rest + [x], q, w) && w != x.0
    ensures IsAbove(rest, q, w)
  {
    Prefix(rest, x);
    var p :| q < p < |rest + [x]| && 0 <= p && (rest + [x])[p].0 == w;
    assert rest[p].0 == w;
  }

  lemma AbovePush(rest: seq<Visit>, x: Visit, q: int, w: Node)
    requires IsAbove(rest, q, w)
    ensures IsAbove(rest + [x], q, w)
  {
    Prefix(rest, x);
    var p :| q < p < |rest| && 0 <= p && rest[p].0 == w;
    assert (rest + [x])[p].0 == w;
  }

  /** What was said below the top entry holds without it. */
  lemma LowerPart<S>(g: Graph<S>, start: set<Node>, root: Node, rest: seq<Visit>, x: Visit, visited: set<Visit>)
    requires Descending(g, start, rest + [x]) && OwnNeighbour(rest + [x], visited) &&
             Reasons(g, start, root, rest + [x], visited)
    ensures Descending(g, start, rest) && OwnNeighbour(rest, visited) && Reasons(g, start, root, rest, visited)
  {
    hide Reaches, Shadowed, JustAbove;
    Prefix(rest, x);
    var stack := rest + [x];
    forall q, p | 0 <= q < p < |rest| && rest[q].1 ensures Reaches(g, start, rest[q].0, rest[p].0) {
      assert stack[q] == rest[q] && stack[p] == rest[p];
    }
    forall p | 0 <= p < |rest| && !rest[p].1 && rest[p] in visited ensures JustAbove(rest, p) {
      assert stack[p] == rest[p];
      JustAbovePrefix(rest, x, p);
    }
    forall p, q | 0 <= p < q < |rest| && !rest[p].1 && Lively(visited, rest[p]) && Lively(visited, rest[q])
      ensures Shadowed(g, start, root, rest[p].0, rest[q].0)
    {
      assert stack[q] == rest[q] && stack[p] == rest[p];
    }
  }

  /** A value that has been visited already is dropped: it is waiting right above its
      own second visit. */
  lemma ScheduledPop<S>(g: Graph<S>, rest: seq<Visit>, x: Visit, visited: set<Visit>, cached: set<Node>)
    requires Scheduled(g, rest + [x], cached, -1) && OwnNeighbour(rest + [x], visited) && !x.1 && x in visited
    ensures Scheduled(g, rest, cached, -1)
  {
    var stack := rest + [x];
    Prefix(rest, x);
    assert JustAbove(stack, |rest|);
    var t :| 0 <= t < |rest| && stack[t] == (x.0, true) && forall r | t < r < |rest| :: !stack[r].1;
    forall q | 0 <= q < |rest| && rest[q].1 ensures NeighboursAbove(g, rest, cached, q) {
      assert stack[q] == rest[q];
      assert NeighboursAbove(g, stack, cached, q);
      var u := rest[q].0;
      forall w | w in g.succ[u] && w != u && w !in cached ensures IsAbove(rest, q, w) {
        assert IsAbove(stack, q, w);
        if w == x.0 {
          assert rest[t].0 == w && q < t;
        } else {
          AbovePop(rest, x, q, w);
        }
      }
    }
  }

  lemma PopAgain<S>(g: Graph<S>, start: set<Node>, root: Node, rest: seq<Visit>, x: Visit, visited: set<Visit>,
                    cached: set<Node>)
    requires Tidy(g, start, root, rest + [x], visited, cached) && Scheduled(g, rest + [x], cached, -1) && x in visited
    ensures Tidy(g, start, root, rest, visited, cached) && Scheduled(g, rest, cached, -1)
  {
    hide Placed, Scheduled, Descending, OwnNeighbour, Reasons;
    PlacedPop(g, start, root, rest, x, visited, cached);
    LowerPart(g, start, root, rest, x, visited);
    ScheduledPop(g, rest, x, visited, cached);
  }

  // second visits

  lemma PlacedMerge<S>(g: Graph<S>, start: set<Node>, root: Node, rest: seq<Visit>, v: Node, visited: set<Visit>,
                       cached: set<Node>)
    requires Placed(g, start, root, rest + [(v, true)], visited, cached)
    ensures Placed(g, start, root, rest, visited + {(v, true)}, cached + {v})
    ensures v in g.succ && v !in cached
  {
    hide Reaches, Graph.WellFormed;
    Prefix(rest, (v, true));
  }

  lemma ScheduledMerge<S>(g: Graph<S>, rest: seq<Visit>, v: Node, cached: set<Node>)
    requires Scheduled(g, rest + [(v, true)], cached, -1)
    ensures Scheduled(g, rest, cached + {v}, -1)
    ensures v in g.succ && forall w | w in g.succ[v] && w != v :: w in cached
  {
    var stack := rest + [(v, true)];
    Prefix(rest, (v, true));
    assert NeighboursAbove(g, stack, cached, |rest|);
    forall q | 0 <= q < |rest| && rest[q].1 ensures NeighboursAbove(g, rest, cached + {v}, q) {
      assert stack[q] == rest[q];
      assert NeighboursAbove(g, stack, cached, q);
      var u := rest[q].0;
      forall w | w in g.succ[u] && w != u && w !in cached + {v} ensures IsAbove(rest, q, w) {
        assert IsAbove(stack, q, w);
        AbovePop(rest, (v, true), q, w);
      }
    }
  }

  /** Marking a second visit matters to nothing that waits. */
  lemma MarkSecond<S>(g: Graph<S>, start: set<Node>, root: Node, rest: seq<Visit>, v: Node, visited: set<Visit>)
    requires OwnNeighbour(rest, visited) && Reasons(g, start, root, rest, visited)
    ensures OwnNeighbour(rest, visited + {(v, true)}) && Reasons(g, start, root, rest, visited + {(v, true)})
  {
    hide Shadowed, JustAbove;
  }

  lemma MergeTidy<S>(g: Graph<S>, start: set<Node>, root: Node, rest: seq<Visit>, v: Node, visited: set<Visit>,
                     cached: set<Node>)
    requires Tidy(g, start, root, rest + [(v, true)], visited, cached) && Scheduled(g, rest + [(v, true)], cached, -1)
    ensures Tidy(g, start, root, rest, visited + {(v, true)}, cached + {v}) && Scheduled(g, rest, cached + {v}, -1)
    ensures v in g.succ && v !in cached && forall w | w in g.succ[v] && w != v :: w in cached
  {
    hide Placed, Scheduled, Descending, OwnNeighbour, Reasons;
    PlacedMerge(g, start, root, rest, v, visited, cached);
    LowerPart(g, start, root, rest, (v, true), visited);
    MarkSecond(g, start, root, rest, v, visited);
    ScheduledMerge(g, rest, v, cached);
  }

  // first visits

  /** In the first visit of `v`, whose second visit waits at `m`, with its first `n`
      neighbours looked at. */
  ghost predicate Opening<S>(g: Graph<S>, stack: seq<Visit>, cached: set<Node>, v: Node, m: nat, n: nat) {
    && m < |stack| && stack[m] == (v, true) && v in g.succ && n <= |g.succ[v]|
    && (forall p | m < p < |stack| :: !stack[p].1 && stack[p].0 in g.succ[v][..n])
    && forall i | 0 <= i < n :: g.succ[v][i] in cached || (g.succ[v][i], false) in stack
  }

  lemma PlacedOpen<S>(g: Graph<S>, start: set<Node>, root: Node, rest: seq<Visit>, v: Node, visited: set<Visit>,
                      cached: set<Node>)
    requires Placed(g, start, root, rest + [(v, false)], visited, cached) && (v, false) !in visited
    ensures Placed(g, start, root, rest + [(v, true)], visited + {(v, false)}, cached)
    ensures v in g.succ && v !in cached && (v, false) !in rest
  {
    hide Reaches, Graph.WellFormed;
    Prefix(rest, (v, false));
    Prefix(rest, (v, true));
    assert (rest + [(v, false)])[|rest|] == (v, false);
  }

  lemma DescendingOpen<S>(g: Graph<S>, start: set<Node>, rest: seq<Visit>, v: Node)
    requires Descending(g, start, rest + [(v, false)])
    ensures Descending(g, start, rest + [(v, true)])
  {
    hide Reaches;
    Prefix(rest, (v, false));
    Prefix(rest, (v, true));
    var stack, stack' := rest + [(v, false)], rest + [(v, true)];
    forall q, p | 0 <= q < p < |stack'| && stack'[q].1 ensures Reaches(g, start, stack'[q].0, stack'[p].0) {
      assert stack[q] == stack'[q] && stack[p].0 == stack'[p].0;
    }
  }

  lemma OwnNeighbourOpen(rest: seq<Visit>, v: Node, visited: set<Visit>)
    requires OwnNeighbour(rest + [(v, false)], visited) && (v, false) !in rest
    ensures OwnNeighbour(rest + [(v, true)], visited + {(v, false)})
  {
    hide JustAbove;
    Prefix(rest, (v, false));
    Prefix(rest, (v, true));
    var stack' := rest + [(v, true)];
    forall p | 0 <= p < |stack'| && !stack'[p].1 && stack'[p] in visited + {(v, false)} ensures JustAbove(stack', p) {
      assert stack'[p] == rest[p];
      assert rest[p] in rest;
      assert (rest + [(v, false)])[p] == rest[p];
      JustAbovePrefix(rest, (v, false), p);
      JustAbovePrefix(rest, (v, true), p);
    }
  }

  lemma ReasonsOpen<S>(g: Graph<S>, start: set<Node>, root: Node, rest: seq<Visit>, v: Node, visited: set<Visit>)
    requires Reasons(g, start, root, rest + [(v, false)], visited) && (v, false) !in visited
    ensures Reasons(g, start, root, rest + [(v, true)], visited + {(v, false)})
  {
    hide Shadowed;
    Prefix(rest, (v, false));
    Prefix(rest, (v, true));
    var stack, stack' := rest + [(v, false)], rest + [(v, true)];
    forall p, q | 0 <= p < q < |stack'| && !stack'[p].1 && Lively(visited + {(v, false)}, stack'[p]) &&
        Lively(visited + {(v, false)}, stack'[q])
      ensures Shadowed(g, start, root, stack'[p].0, stack'[q].0)
    {
      assert stack[p] == stack'[p] && stack[q].0 == stack'[q].0;
      assert Lively(visited, stack[p]) && Lively(visited, stack[q]);
    }
  }

  lemma ScheduledOpen<S>(g: Graph<S>, rest: seq<Visit>, v: Node, cached: set<Node>)
    requires Scheduled(g, rest + [(v, false)], cached, -1)
    ensures Scheduled(g, rest + [(v, true)], cached, |rest|)
  {
    Prefix(rest, (v, false));
    Prefix(rest, (v, true));
    var stack, stack' := rest + [(v, false)], rest + [(v, true)];
    forall q | 0 <= q < |rest| && stack'[q].1 ensures NeighboursAbove(g, stack', cached, q) {
      assert stack[q] == stack'[q];
      assert NeighboursAbove(g, stack, cached, q);
      var u := stack[q].0;
      forall w | w in g.succ[u] && w != u && w !in cached ensures IsAbove(stack', q, w) {
        var p :| q < p < |stack| && 0 <= p && stack[p].0 == w;
        assert stack'[p].0 == w;
      }
    }
  }

  lemma OpenTidy<S>(g: Graph<S>, start: set<Node>, root: Node, rest: seq<Visit>, v: Node, visited: set<Visit>,
                    cached: set<Node>)
    requires Tidy(g, start, root, rest + [(v, false)], visited, cached) && Scheduled(g, rest + [(v, false)], cached, -1)
    requires (v, false) !in visited
    ensures v in g.succ && v !in cached
    ensures Tidy(g, start, root, rest + [(v, true)], visited + {(v, false)}, cached)
    ensures Scheduled(g, rest + [(v, true)], cached, |rest|) && Opening(g, rest + [(v, true)], cached, v, |rest|, 0)
  {
    PlacedOpen(g, start, root, rest, v, visited, cached);
    hide Placed, Scheduled, Descending, OwnNeighbour, Reasons;
    DescendingOpen(g, start, rest, v);
    OwnNeighbourOpen(rest, v, visited);
    ReasonsOpen(g, start, root, rest, v, visited);
    ScheduledOpen(g, rest, v, cached);
  }

  /** A value that has been visited, and is not finished, reaches the current one. */
  lemma AncestorReaches<S>(g: Graph<S>, start: set<Node>, root: Node, stack: seq<Visit>, visited: set<Visit>,
                           cached: set<Node>, v: Node, m: nat, n: nat, w: Node)
    requires Placed(g, start, root, stack, visited, cached) && Descending(g, start, stack)
    requires Opening(g, stack, cached, v, m, n) && w != v && w !in cached && (w, false) in visited
    ensures Reaches(g, start, w, v)
  {
    hide Reaches, Graph.WellFormed;
    var t :| 0 <= t < |stack| && stack[t] == (w, true);
  }

  /** So a neighbour of that kind would close a cycle. */
  lemma NotAnAncestor<S>(g: Graph<S>, start: set<Node>, root: Node, within: set<Node>, stack: seq<Visit>,
                         visited: set<Visit>,
                         cached: set<Node>, v: Node, m: nat, n: nat, w: Node)
    requires Placed(g, start, root, stack, visited, cached) && Descending(g, start, stack) && NoCycles(g, start, within)
    requires Opening(g, stack, cached, v, m, n) && v in within && w in g.succ[v]
    ensures w == v || w in cached || (w, false) !in visited
  {
    hide Reaches, Graph.WellFormed;
    if w != v && w !in cached && (w, false) in visited {
      AncestorReaches(g, start, root, stack, visited, cached, v, m, n, w);
    }
  }

  /** A neighbour that waits already waits above: below it would be out of order. */
  lemma WaitsAbove<S>(g: Graph<S>, start: set<Node>, root: Node, within: set<Node>, stack: seq<Visit>,
                      visited: set<Visit>,
                      cached: set<Node>, v: Node, m: nat, n: nat, w: Node, p: nat)
    requires Placed(g, start, root, stack, visited, cached) && Reasons(g, start, root, stack, visited)
    requires InOrder(g, start, within) && forall u | u in g.succ && Reaches(g, start, root, u) :: u in within
    requires Opening(g, stack, cached, v, m, n) && w in g.succ[v] && w != v && (w, false) !in visited && w !in cached
    requires p < |stack| && stack[p] == (w, false)
    ensures p > m
  {
    if p < m {
      hide Reaches, FirstAt;
      assert Shadowed(g, start, root, w, v) by {
        assert Lively(visited, stack[p]) && Lively(visited, stack[m]);
      }
      var u, i, j, c :| WaitsBelow(g, start, u, i, j, w, c) && Reaches(g, start, root, u) && Reaches(g, start, c, v);
      ReachesStep(g, start, c, v, w);
      assert false;
    }
  }

  ghost predicate RegionWithin<S>(g: Graph<S>, start: set<Node>, root: Node, within: set<Node>) {
    forall u | u in g.succ && Reaches(g, start, root, u) :: u in within
  }

  lemma PlacedPush<S>(g: Graph<S>, start: set<Node>, root: Node, stack: seq<Visit>, visited: set<Visit>,
                      cached: set<Node>,
                      v: Node, m: nat, w: Node)
    requires Placed(g, start, root, stack, visited, cached) && m < |stack| && stack[m] == (v, true)
    requires v in g.succ && w in g.succ[v] && w !in cached && (w, false) !in stack
    ensures Placed(g, start, root, stack + [(w, false)], visited, cached)
    ensures Reaches(g, start, root, v) && w !in start && w in g.succ
  {
    hide Reaches;
    Prefix(stack, (w, false));
    assert stack[m] in stack;
    var k :| 0 <= k < |g.succ[v]| && g.succ[v][k] == w;
    assert g.succ[v][k] in g.succ;
    ReachesStep(g, start, root, v, w);
  }

  lemma DescendingPush<S>(g: Graph<S>, start: set<Node>, stack: seq<Visit>, v: Node, m: nat, n: nat,
                          cached: set<Node>, w: Node)
    requires g.WellFormed() && Descending(g, start, stack) && Opening(g, stack, cached, v, m, n)
    requires w in g.succ[v] && w !in start && v !in start
    ensures Descending(g, start, stack + [(w, false)])
  {
    hide Reaches, Graph.WellFormed;
    Prefix(stack, (w, false));
    var stack' := stack + [(w, false)];
    forall q, p | 0 <= q < p < |stack'| && stack'[q].1 ensures Reaches(g, start, stack'[q].0, stack'[p].0) {
      if p < |stack| {
        assert stack'[q] == stack[q] && stack'[p] == stack[p];
      } else {
        if q == m {
          ReachesSelf(g, start, v);
        } else {
          assert stack[q].1 && q < m;
        }
        ReachesStep(g, start, stack'[q].0, v, w);
      }
    }
  }

  lemma OwnNeighbourPush<S>(g: Graph<S>, stack: seq<Visit>, visited: set<Visit>, cached: set<Node>, v: Node, m: nat,
                            n: nat, w: Node)
    requires OwnNeighbour(stack, visited) && Opening(g, stack, cached, v, m, n) && (w == v || (w, false) !in visited)
    ensures OwnNeighbour(stack + [(w, false)], visited)
  {
    Prefix(stack, (w, false));
    var stack' := stack + [(w, false)];
    forall p | 0 <= p < |stack'| && !stack'[p].1 && stack'[p] in visited ensures JustAbove(stack', p) {
      if p < |stack| {
        assert stack'[p] == stack[p];
        JustAbovePrefix(stack, (w, false), p);
      } else {
        assert stack'[m] == (w, true) && forall r | m < r < p :: !stack'[r].1;
      }
    }
  }

  lemma ShadowedFurther<S>(g: Graph<S>, start: set<Node>, root: Node, x: Node, v: Node, w: Node)
    requires g.WellFormed() && Shadowed(g, start, root, x, v) && v in g.succ && w in g.succ[v] && w !in start
    ensures Shadowed(g, start, root, x, w)
  {
    hide Reaches, Graph.WellFormed, WaitsBelow;
    var u, i, j, c :| WaitsBelow(g, start, u, i, j, x, c) && Reaches(g, start, root, u) && Reaches(g, start, c, v);
    ReachesStep(g, start, c, v, w);
  }

  lemma ReasonsPush<S>(g: Graph<S>, start: set<Node>, root: Node, stack: seq<Visit>, visited: set<Visit>,
                       cached: set<Node>,
                       v: Node, m: nat, n: nat)
    requires Placed(g, start, root, stack, visited, cached) && Reasons(g, start, root, stack, visited)
    requires Opening(g, stack, cached, v, m, n) && n < |g.succ[v]| && Reaches(g, start, root, v)
    requires g.succ[v][n] !in cached && (g.succ[v][n], false) !in stack && g.succ[v][n] in g.succ &&
             g.succ[v][n] !in start
    requires (v, false) in visited
    ensures Reasons(g, start, root, stack + [(g.succ[v][n], false)], visited)
  {
    hide Reaches, Graph.WellFormed;
    var w := g.succ[v][n];
    Prefix(stack, (w, false));
    var stack' := stack + [(w, false)];
    forall p, q | 0 <= p < q < |stack'| && !stack'[p].1 && Lively(visited, stack'[p]) && Lively(visited, stack'[q])
      ensures Shadowed(g, start, root, stack'[p].0, stack'[q].0)
    {
      assert stack'[p] == stack[p];
      if q < |stack| {
        assert stack'[q] == stack[q];
      } else if p < m {
        assert Lively(visited, stack[m]);
        ShadowedFurther(g, start, root, stack[p].0, v, w);
      } else {
        assert p > m && w != v;
        var i :| 0 <= i < n && g.succ[v][i] == stack[p].0;
        assert stack[p] in stack;
        assert WaitsBelow(g, start, v, i, n, stack[p].0, w);
        ReachesSelf(g, start, w);
      }
    }
  }

  lemma ScheduledPush<S>(g: Graph<S>, stack: seq<Visit>, cached: set<Node>, m: nat, w: Node)
    requires Scheduled(g, stack, cached, m)
    ensures Scheduled(g, stack + [(w, false)], cached, m)
  {
    Prefix(stack, (w, false));
    var stack' := stack + [(w, false)];
    forall q | 0 <= q < |stack'| && stack'[q].1 && q != m ensures NeighboursAbove(g, stack', cached, q) {
      assert stack'[q] == stack[q];
      assert NeighboursAbove(g, stack, cached, q);
      forall x | x in g.succ[stack[q].0] && x != stack[q].0 && x !in cached ensures IsAbove(stack', q, x) {
        AbovePush(stack, (w, false), q, x);
      }
    }
  }

  /** Looking at one more neighbour. */
  lemma OpenMore<S>(g: Graph<S>, start: set<Node>, root: Node, within: set<Node>, stack: seq<Visit>,
                    visited: set<Visit>,
                    cached: set<Node>, v: Node, m: nat, n: nat)
    requires Tidy(g, start, root, stack, visited, cached) && Scheduled(g, stack, cached, m)
    requires Opening(g, stack, cached, v, m, n) && n < |g.succ[v]| && (v, false) in visited && v !in start
    requires NoCycles(g, start, within) && RegionWithin(g, start, root, within)
    ensures var w := g.succ[v][n];
            var stack' := if w in cached || (w, false) in stack then stack else stack + [(w, false)];
            && Tidy(g, start, root, stack', visited, cached) && Scheduled(g, stack', cached, m)
            && Opening(g, stack', cached, v, m, n + 1)
  {
    hide Placed, Scheduled, Descending, OwnNeighbour, Reasons, NoCycles, Reaches, Graph.WellFormed;
    var w := g.succ[v][n];
    assert g.succ[v][..n + 1] == g.succ[v][..n] + [w];
    if w !in cached && (w, false) !in stack {
      PlacedPush(g, start, root, stack, visited, cached, v, m, w);
      NotAnAncestor(g, start, root, within, stack, visited, cached, v, m, n, w);
      assert g.WellFormed() by { PlacedGraph(g, start, root, stack, visited, cached); }
      DescendingPush(g, start, stack, v, m, n, cached, w);
      OwnNeighbourPush(g, stack, visited, cached, v, m, n, w);
      ReasonsPush(g, start, root, stack, visited, cached, v, m, n);
      ScheduledPush(g, stack, cached, m, w);
      Prefix(stack, (w, false));
    }
  }

  lemma PlacedGraph<S>(g: Graph<S>, start: set<Node>, root: Node, stack: seq<Visit>, visited: set<Visit>,
                       cached: set<Node>)
    requires Placed(g, start, root, stack, visited, cached)
    ensures g.WellFormed()
  {
  }

  /** All neighbours have been looked at: they are cached or wait above. */
  lemma OpenDone<S>(g: Graph<S>, start: set<Node>, root: Node, within: set<Node>, stack: seq<Visit>,
                    visited: set<Visit>,
                    cached: set<Node>, v: Node, m: nat)
    requires Tidy(g, start, root, stack, visited, cached) && Scheduled(g, stack, cached, m)
    requires Opening(g, stack, cached, v, m, if v in g.succ then |g.succ[v]| else 0) && v in within
    requires Orderly(g, start, within) && RegionWithin(g, start, root, within)
    ensures Scheduled(g, stack, cached, -1)
  {
    hide Placed, Descending, OwnNeighbour, Reasons, NoCycles, InOrder, Reaches, Graph.WellFormed;
    var n := |g.succ[v]|;
    assert g.succ[v][..n] == g.succ[v];
    forall w | w in g.succ[v] && w != v && w !in cached ensures IsAbove(stack, m, w) {
      NotAnAncestor(g, start, root, within, stack, visited, cached, v, m, n, w);
      var i :| 0 <= i < n && g.succ[v][i] == w;
      var p: nat :| p < |stack| && stack[p] == (w, false);
      WaitsAbove(g, start, root, within, stack, visited, cached, v, m, n, w, p);
    }
    assert NeighboursAbove(g, stack, cached, m);
  }

  // ---------- exact entries ----------

  /** A value's sites are its own and those of its neighbours. */
  lemma {:induction false} SitesOnPath<S>(g: Graph<S>, v: Node, path: seq<Node>, s: S)
    requires g.WellFormed() && IsPath(g, {}, path) && path[0] == v && s in g.own[path[|path| - 1]]
    ensures s in g.own[v] || exists w :: w in g.succ[v] && w != v && w in g.succ && s in Sites(g, w)
    decreases |path|
  {
    if |path| > 1 {
      var rest, w := path[1..], path[1];
      assert IsPath(g, {}, rest) && rest[|rest| - 1] == path[|path| - 1];
      if w == v {
        SitesOnPath(g, v, rest, s);
      } else {
        assert Reaches(g, {}, w, path[|path| - 1]);
      }
    }
  }

  lemma MergeIsExact<S>(g: Graph<S>, cache: Cache<S>, v: Node)
    requires g.WellFormed() && ExactCache(g, cache) && v in g.succ && v !in cache
    requires forall w | w in g.succ[v] && w != v :: w in cache
    ensures Merge(g, cache, v) == Sites(g, v)
  {
    forall s | s in Sites(g, v) ensures s in Merge(g, cache, v) {
      var x :| x in g.succ && Reaches(g, {}, v, x) && s in g.own[x];
      var path :| IsPath(g, {}, path) && path[0] == v && path[|path| - 1] == x;
      SitesOnPath(g, v, path, s);
    }
    MergeIsSound(g, cache, v);
  }

  lemma MergeIsSound<S>(g: Graph<S>, cache: Cache<S>, v: Node)
    requires g.WellFormed() && ExactCache(g, cache) && v in g.succ
    ensures Merge(g, cache, v) <= Sites(g, v)
  {
    ReachesSelf(g, {}, v);
    forall c, s | c in g.succ[v] && c in cache && s in cache[c] ensures s in Sites(g, v) {
      ReachesStep(g, {}, v, v, c);
      SitesTransitive(g, v, c);
    }
  }

  lemma EntryKeepsExact<S>(g: Graph<S>, cache: Cache<S>, v: Node)
    requires g.WellFormed() && ExactCache(g, cache) && v in g.succ && v !in cache
    requires forall w | w in g.succ[v] && w != v :: w in cache
    ensures ExactCache(g, cache[v := Merge(g, cache, v)])
    ensures cache[v := Merge(g, cache, v)].Keys == cache.Keys + {v}
  {
    hide Merge, Sites;
    MergeIsExact(g, cache, v);
  }

  ghost predicate Good<S>(g: Graph<S>, start: set<Node>, root: Node, c: Config<S>)
    requires g.WellFormed()
  {
    && Tidy(g, start, root, c.stack, c.visited, c.cache.Keys) && Scheduled(g, c.stack, c.cache.Keys, -1)
    && ExactCache(g, c.cache)
  }

  lemma {:induction false} OpenAll<S>(g: Graph<S>, start: set<Node>, root: Node, within: set<Node>, stack: seq<Visit>,
                                      visited: set<Visit>, cached: set<Node>, v: Node, m: nat, n: nat)
    requires Tidy(g, start, root, stack, visited, cached) && Scheduled(g, stack, cached, m)
    requires Opening(g, stack, cached, v, m, 0) && (v, false) in visited && v !in start && v in g.succ &&
             n <= |g.succ[v]|
    requires NoCycles(g, start, within) && RegionWithin(g, start, root, within)
    ensures var stack' := PushAll(stack, cached, g.succ[v][..n]);
            && Tidy(g, start, root, stack', visited, cached) && Scheduled(g, stack', cached, m)
            && Opening(g, stack', cached, v, m, n)
  {
    hide Tidy, Scheduled, Opening, NoCycles, RegionWithin;
    if n > 0 {
      OpenAll(g, start, root, within, stack, visited, cached, v, m, n - 1);
      OpenMore(g, start, root, within, PushAll(stack, cached, g.succ[v][..n - 1]), visited, cached, v, m, n - 1);
      assert g.succ[v][..n][..n - 1] == g.succ[v][..n - 1];
    }
  }

  lemma TopIsPlaced<S>(g: Graph<S>, start: set<Node>, root: Node, rest: seq<Visit>, x: Visit, visited: set<Visit>,
                       cached: set<Node>)
    requires Placed(g, start, root, rest + [x], visited, cached)
    ensures x.0 in g.succ && x.0 !in start && Reaches(g, start, root, x.0) && (x.1 ==> x !in visited)
  {
    Prefix(rest, x);
  }

  /** One round of the search on an orderly region keeps all entries exact. */
  lemma GoodRound<S>(g: Graph<S>, start: set<Node>, root: Node, within: set<Node>, c: Config<S>)
    requires g.WellFormed() && Good(g, start, root, c) && Orderly(g, start, within) &&
             RegionWithin(g, start, root, within)
    ensures Good(g, start, root, RoundOf(g, c))
  {
    hide Placed, Descending, OwnNeighbour, Reasons, Scheduled, NoCycles, InOrder, RegionWithin, PushAll, Merge,
        ExactCache;
    if c.stack != [] {
      var rest, x := c.stack[..|c.stack| - 1], c.stack[|c.stack| - 1];
      assert c.stack == rest + [x];
      TopIsPlaced(g, start, root, rest, x, c.visited, c.cache.Keys);
      if x in c.visited {
        PopAgain(g, start, root, rest, x, c.visited, c.cache.Keys);
      } else if x.1 {
        assert x == (x.0, true);
        MergeTidy(g, start, root, rest, x.0, c.visited, c.cache.Keys);
        EntryKeepsExact(g, c.cache, x.0);
      } else {
        GoodFirstVisit(g, start, root, within, rest, x.0, c);
      }
    }
  }

  lemma GoodFirstVisit<S>(g: Graph<S>, start: set<Node>, root: Node, within: set<Node>, rest: seq<Visit>, v: Node,
                          c: Config<S>)
    requires g.WellFormed() && Good(g, start, root, c) && Orderly(g, start, within) &&
             RegionWithin(g, start, root, within)
    requires c.stack == rest + [(v, false)] && (v, false) !in c.visited
    ensures v in g.succ && v !in c.cache
    ensures Good(g, start, root,
            Config(PushAll(rest + [(v, true)], c.cache.Keys, g.succ[v]), c.visited + {(v, false)}, c.cache))
  {
    hide Tidy, Scheduled, NoCycles, InOrder, ExactCache, PushAll, Opening;
    var cached := c.cache.Keys;
    TidyIsPlaced(g, start, root, c.stack, c.visited, cached);
    TopIsPlaced(g, start, root, rest, (v, false), c.visited, cached);
    OpenTidy(g, start, root, rest, v, c.visited, cached);
    var again, visited := rest + [(v, true)], c.visited + {(v, false)};
    var n := |g.succ[v]|;
    OpenAll(g, start, root, within, again, visited, cached, v, |rest|, n);
    assert g.succ[v][..n] == g.succ[v];
    OpenDone(g, start, root, within, PushAll(again, cached, g.succ[v]), visited, cached, v, |rest|);
  }

  lemma TidyIsPlaced<S>(g: Graph<S>, start: set<Node>, root: Node, stack: seq<Visit>, visited: set<Visit>,
                        cached: set<Node>)
    requires Tidy(g, start, root, stack, visited, cached)
    ensures Placed(g, start, root, stack, visited, cached)
  {
  }

  lemma {:induction false} GoodRounds<S>(g: Graph<S>, start: set<Node>, root: Node, within: set<Node>, c: Config<S>,
                                         n: nat)
    requires g.WellFormed() && Good(g, start, root, c) && Orderly(g, start, within) &&
             RegionWithin(g, start, root, within)
    ensures Good(g, start, root, Rounds(g, c, n))
  {
    hide Good, Orderly, RegionWithin, RoundOf;
    if n > 0 {
      GoodRounds(g, start, root, within, c, n - 1);
      GoodRound(g, start, root, within, Rounds(g, c, n - 1));
    }
  }

  /** Exact caches stay exact if the uncached values that the query meets are orderly:
      no cycle of different values, and no neighbour waiting below one that reaches
      it. */
  lemma OrderlyKeepsExact<S>(g: Graph<S>, cache: Cache<S>, root: Node, within: set<Node>, cache': Cache<S>)
    requires g.WellFormed() && ExactCache(g, cache) && root in g.succ && root !in cache
    requires Orderly(g, cache.Keys, within) && RegionWithin(g, cache.Keys, root, within)
    requires RunsTo(g, cache, root, cache')
    ensures ExactCache(g, cache')
  {
    hide Orderly, RegionWithin, Tidy, Scheduled, Rounds, ExactCache;
    var c := Config([(root, false)], {}, cache);
    TidyStart(g, cache.Keys, root);
    var n: nat :| RunsToIn(g, cache, root, cache', n);
    GoodRounds(g, cache.Keys, root, within, c, n);
  }

  /** What is cached after a query only makes the rest more orderly. */
  lemma ReachesBlockedMore<S>(g: Graph<S>, cached: set<Node>, cached': set<Node>, u: Node, v: Node)
    requires cached <= cached' && Reaches(g, cached', u, v)
    ensures Reaches(g, cached, u, v)
  {
    var path :| IsPath(g, cached', path) && path[0] == u && path[|path| - 1] == v;
    assert IsPath(g, cached, path);
  }

  lemma OrderlyMore<S>(g: Graph<S>, cached: set<Node>, cached': set<Node>, within: set<Node>, within': set<Node>)
    requires Orderly(g, cached, within) && cached <= cached' && within' <= within
    ensures Orderly(g, cached', within')
  {
    hide Reaches, FirstAt;
    forall u, w | u in within' && u in g.succ && w in g.succ[u] && w != u && w !in cached'
      ensures !Reaches(g, cached', w, u)
    {
      if Reaches(g, cached', w, u) { ReachesBlockedMore(g, cached, cached', w, u); }
    }
    forall u, i, j, w, c | u in within' && WaitsBelow(g, cached', u, i, j, w, c) ensures !Reaches(g, cached', c, w) {
      assert WaitsBelow(g, cached, u, i, j, w, c);
      if Reaches(g, cached', c, w) { ReachesBlockedMore(g, cached, cached', c, w); }
    }
  }

  /** A later query meets no more values, and these are orderly still. */
  lemma OrderlyLater<S>(g: Graph<S>, cached: set<Node>, cached': set<Node>, root: Node)
    requires cached <= cached' && Orderly(g, cached, Region(g, cached, root))
    ensures Orderly(g, cached', Region(g, cached', root))
  {
    hide Reaches, Orderly;
    forall u | Reaches(g, cached', root, u) ensures Reaches(g, cached, root, u) {
      ReachesBlockedMore(g, cached, cached', root, u);
    }
    OrderlyMore(g, cached, cached', Region(g, cached, root), Region(g, cached', root));
  }

  ghost function Uncached<S>(g: Graph<S>, cache: Cache<S>): set<Node> {
    g.succ.Keys - cache.Keys
  }

  lemma RegionIsUncached<S>(g: Graph<S>, cache: Cache<S>, root: Node)
    ensures RegionWithin(g, cache.Keys, root, Uncached(g, cache))
  {
    forall u | u in g.succ && Reaches(g, cache.Keys, root, u) ensures u !in cache {
      var path :| IsPath(g, cache.Keys, path) && path[0] == root && path[|path| - 1] == u;
    }
  }

  /** The values that each query could meet are orderly. */
  ghost predicate RegionsOrderly<S>(g: Graph<S>, cached: set<Node>, roots: seq<Node>) {
    forall k | 0 <= k < |roots| :: Orderly(g, cached, Region(g, cached, roots[k]))
  }

  lemma RegionsOrderlyLater<S>(g: Graph<S>, cached: set<Node>, cached': set<Node>, roots: seq<Node>)
    requires cached <= cached' && RegionsOrderly(g, cached, roots)
    ensures RegionsOrderly(g, cached', roots)
  {
    hide Orderly;
    forall k | 0 <= k < |roots| ensures Orderly(g, cached', Region(g, cached', roots[k])) {
      OrderlyLater(g, cached, cached', roots[k]);
    }
  }

  /** Any sequence of queries for values around which all is orderly: every answer is
      exact, whatever was asked before. */
  method FindAll<S>(search: CachedSearch<S>, roots: seq<Node>) returns (answers: seq<set<S>>)
    requires search.Valid() && forall k | 0 <= k < |roots| :: roots[k] in search.g.succ
    requires ExactCache(search.g, search.cache) && RegionsOrderly(search.g, search.cache.Keys, roots)
    modifies search
    ensures search.Valid() && ExactCache(search.g, search.cache) && |answers| == |roots|
    ensures forall k | 0 <= k < |roots| :: answers[k] == Sites(search.g, roots[k])
  {
    hide Orderly, ExactCache, Sites, RegionsOrderly;
    answers := [];
    for k := 0 to |roots|
      invariant search.Valid() && ExactCache(search.g, search.cache) && |answers| == k
      invariant RegionsOrderly(search.g, search.cache.Keys, roots)
      invariant forall i | 0 <= i < k :: answers[i] == Sites(search.g, roots[i])
    {
      ghost var before := search.cache;
      var r := search.Find(roots[k]);
      if roots[k] !in before {
        QueryKeepsExact(search.g, before, roots, k, search.cache);
      }
      RegionsOrderlyLater(search.g, before.Keys, search.cache.Keys, roots);
      CachedIsExact(search.g, search.cache, roots[k]);
      answers := answers + [r];
    }
  }

  lemma QueryKeepsExact<S>(g: Graph<S>, cache: Cache<S>, roots: seq<Node>, k: nat, cache': Cache<S>)
    requires g.WellFormed() && ExactCache(g, cache) && RegionsOrderly(g, cache.Keys, roots)
    requires k < |roots| && roots[k] in g.succ && roots[k] !in cache && RunsTo(g, cache, roots[k], cache')
    ensures ExactCache(g, cache')
  {
    OrderlyKeepsExact(g, cache, roots[k], Region(g, cache.Keys, roots[k]), cache');
  }

  lemma CachedIsExact<S>(g: Graph<S>, cache: Cache<S>, n: Node)
    requires g.WellFormed() && ExactCache(g, cache) && n in cache
    ensures n in g.succ && cache[n] == Sites(g, n)
  {
  }

  // ---------- and if the order is broken ----------

  /** `n` leads to site `s` on a way that does not meet `v`. */
  ghost predicate ShowsWithout<S>(g: Graph<S>, v: Node, n: Node, s: S) {
    exists x :: x in g.own && Reaches(g, {v}, n, x) && s in g.own[x]
  }

  /** Whenever an uncached value leads to another, that one has a site to which the
      first leads through it only. */
  ghost predicate Separated<S>(g: Graph<S>, cache: Cache<S>)
    requires g.WellFormed()
  {
    forall a, b | a in g.succ && a != b && Reaches(g, cache.Keys, b, a) :: HasSiteBeyond(g, b, a)
  }

  ghost predicate HasSiteBeyond<S>(g: Graph<S>, b: Node, a: Node)
    requires g.WellFormed()
  {
    exists s :: s in Sites(g, a) && !ShowsWithout(g, a, b, s)
  }

  lemma {:induction false} PathStaysCached<S>(g: Graph<S>, cache: Cache<S>, path: seq<Node>, k: nat)
    requires ClosedCache(g, cache) && IsPath(g, {}, path) && path[0] in cache && k < |path|
    ensures path[k] in cache
  {
    if k > 0 {
      PathStaysCached(g, cache, path, k - 1);
      assert path[k - 1 + 1] in g.succ[path[k - 1]];
    }
  }

  /** Before `v` is finished no entry holds a site to which its key leads through `v`
      only. */
  ghost predicate NoSite<S>(g: Graph<S>, cache: Cache<S>, v: Node, s: S) {
    forall n | n in cache && !ShowsWithout(g, v, n, s) :: s !in cache[n]
  }

  lemma CachedHaveNoSite<S>(g: Graph<S>, cache: Cache<S>, v: Node, s: S)
    requires g.WellFormed() && ExactCache(g, cache) && ClosedCache(g, cache) && v !in cache
    ensures NoSite(g, cache, v, s)
  {
    forall n | n in cache && s in Sites(g, n) ensures ShowsWithout(g, v, n, s) {
      var x :| x in g.succ && Reaches(g, {}, n, x) && s in g.own[x];
      var path :| IsPath(g, {}, path) && path[0] == n && path[|path| - 1] == x;
      forall k | 0 <= k < |path| ensures path[k] != v { PathStaysCached(g, cache, path, k); }
      assert IsPath(g, {v}, path);
    }
  }

  lemma ShowsThrough<S>(g: Graph<S>, v: Node, n: Node, c: Node, s: S)
    requires g.WellFormed() && n in g.succ && n != v && c in g.succ[n] && ShowsWithout(g, v, c, s)
    ensures ShowsWithout(g, v, n, s)
  {
    var x :| x in g.own && Reaches(g, {v}, c, x) && s in g.own[x];
    ReachesSelf(g, {v}, n);
    var path :| IsPath(g, {v}, path) && path[0] == c && path[|path| - 1] == x;
    ReachesStep(g, {v}, n, n, c);
    ReachesTransitive(g, {v}, n, c, x);
  }

  lemma MergeHasNoSite<S>(g: Graph<S>, cache: Cache<S>, n: Node, v: Node, s: S)
    requires g.WellFormed() && NoSite(g, cache, v, s) && n in g.succ && n != v
    ensures NoSite(g, cache[n := Merge(g, cache, n)], v, s)
  {
    if s in Merge(g, cache, n) && !ShowsWithout(g, v, n, s) {
      if s in g.own[n] {
        ReachesSelf(g, {v}, n);
      } else {
        var c :| c in g.succ[n] && c in cache && s in cache[c];
        ShowsThrough(g, v, n, c, s);
      }
    }
  }

  lemma PushAllPrefix(stack: seq<Visit>, cached: set<Node>, xs: seq<Node>)
    ensures stack <= PushAll(stack, cached, xs)
    ensures forall x | x in PushAll(stack, cached, xs) :: x in stack || (!x.1 && x.0 in xs && x.0 !in cached)
    ensures forall w | w in xs && w !in cached :: (w, false) in PushAll(stack, cached, xs)
  {
    if xs != [] {
      var front, last := xs[..|xs| - 1], xs[|xs| - 1];
      assert xs == front + [last];
      PushAllPrefix(stack, cached, front);
    }
  }

  lemma {:induction false} PushAllDistinct(stack: seq<Visit>, cached: set<Node>, xs: seq<Node>)
    requires Distinct(stack)
    ensures Distinct(PushAll(stack, cached, xs))
  {
    if xs != [] {
      PushAllDistinct(stack, cached, xs[..|xs| - 1]);
    }
  }

  /** What the rounds need of a configuration, orderly or not. */
  ghost predicate Sane<S>(g: Graph<S>, c: Config<S>) {
    && g.WellFormed() && Distinct(c.stack)
    && (forall x | x in c.stack :: x.0 in g.succ)
    && (forall n | (n, true) in c.visited :: (n, false) in c.visited && n in c.cache)
    && (forall x | x in c.stack && x.1 :: (x.0, false) in c.visited && x !in c.visited && x.0 !in c.cache)
    && (forall n | (n, false) in c.visited && n !in c.cache :: (n, true) in c.stack)
    && (forall x | x in c.stack && !x.1 && x !in c.visited :: x.0 !in c.cache)
  }

  /** The configuration after the first visit of `v`, or after its second. */
  ghost function AfterFirst<S>(g: Graph<S>, c: Config<S>, rest: seq<Visit>, v: Node): Config<S>
    requires v in g.succ
  {
    Config(PushAll(rest + [(v, true)], c.cache.Keys, g.succ[v]), c.visited + {(v, false)}, c.cache)
  }

  ghost function AfterSecond<S>(g: Graph<S>, c: Config<S>, rest: seq<Visit>, v: Node): Config<S>
    requires g.WellFormed() && v in g.succ
  {
    Config(rest, c.visited + {(v, true)}, c.cache[v := Merge(g, c.cache, v)])
  }

  /** A round drops the top entry, or makes its first or its second visit. */
  lemma RoundCases<S>(g: Graph<S>, c: Config<S>, rest: seq<Visit>, x: Visit)
    requires Sane(g, c) && c.stack == rest + [x]
    ensures x.0 in g.succ
    ensures x in c.visited ==> RoundOf(g, c) == c.(stack := rest) && !x.1
    ensures x !in c.visited && x.1 ==> RoundOf(g, c) == AfterSecond(g, c, rest, x.0)
    ensures x !in c.visited && !x.1 ==> x.0 !in c.cache && RoundOf(g, c) == AfterFirst(g, c, rest, x.0)
  {
    hide Merge, PushAll, Graph.WellFormed;
    Prefix(rest, x);
    assert c.stack[..|c.stack| - 1] == rest;
    assert x in c.stack;
  }

  lemma SaneFirst<S>(g: Graph<S>, c: Config<S>, rest: seq<Visit>, v: Node)
    requires Sane(g, c) && c.stack == rest + [(v, false)] && (v, false) !in c.visited && v in g.succ && v !in c.cache
    ensures Sane(g, AfterFirst(g, c, rest, v))
  {
    Prefix(rest, (v, false));
    Prefix(rest, (v, true));
    var again := rest + [(v, true)];
    PushAllPrefix(again, c.cache.Keys, g.succ[v]);
    assert Distinct(again) by {
      forall i, j | 0 <= i < j < |again| ensures again[i] != again[j] {
        assert c.stack[i] == rest[i];
        assert c.stack[i] in c.stack;
      }
    }
    PushAllDistinct(again, c.cache.Keys, g.succ[v]);
    var d := AfterFirst(g, c, rest, v);
    forall x | x in d.stack ensures x.0 in g.succ {
      if x !in again { var k :| 0 <= k < |g.succ[v]| && g.succ[v][k] == x.0; }
    }
    hide PushAll, Distinct, Graph.WellFormed;
    forall y | y in again ensures y in d.stack {}
    forall n | (n, false) in d.visited && n !in d.cache ensures (n, true) in d.stack {
      if n == v { assert (v, true) in again; } else { assert (n, true) in c.stack; }
    }
    forall x | x in d.stack && x.1 ensures (x.0, false) in d.visited && x !in d.visited && x.0 !in d.cache {
      assert x in again;
      if x != (v, true) { assert x in c.stack; }
    }
    forall x | x in d.stack && !x.1 && x !in d.visited ensures x.0 !in d.cache {
      if x in again { assert x in c.stack; }
    }
  }

  lemma SaneSecond<S>(g: Graph<S>, c: Config<S>, rest: seq<Visit>, v: Node)
    requires Sane(g, c) && c.stack == rest + [(v, true)] && v in g.succ
    ensures Sane(g, AfterSecond(g, c, rest, v))
  {
    hide Merge, Graph.WellFormed;
    Prefix(rest, (v, true));
    assert c.stack[|rest|] == (v, true);
    assert (v, true) in c.stack;
    forall y | y in rest ensures y in c.stack && y != (v, true) {
      var i :| 0 <= i < |rest| && rest[i] == y;
      assert c.stack[i] == y;
    }
  }

  lemma SanePop<S>(g: Graph<S>, c: Config<S>, rest: seq<Visit>, x: Visit)
    requires Sane(g, c) && c.stack == rest + [x] && x in c.visited && !x.1
    ensures Sane(g, c.(stack := rest))
  {
    hide Graph.WellFormed;
    Prefix(rest, x);
  }

  lemma SaneRound<S>(g: Graph<S>, c: Config<S>)
    requires Sane(g, c)
    ensures Sane(g, RoundOf(g, c))
  {
    if c.stack != [] {
      var rest, x := c.stack[..|c.stack| - 1], c.stack[|c.stack| - 1];
      assert c.stack == rest + [x];
      hide Sane, RoundOf, AfterFirst, AfterSecond;
      assert g.WellFormed() by { SaneGraph(g, c); }
      RoundCases(g, c, rest, x);
      if x in c.visited {
        SanePop(g, c, rest, x);
      } else if x.1 {
        SaneSecond(g, c, rest, x.0);
      } else {
        SaneFirst(g, c, rest, x.0);
      }
    }
  }

  lemma SaneGraph<S>(g: Graph<S>, c: Config<S>)
    requires Sane(g, c)
    ensures g.WellFormed()
  {
  }

  lemma SaneStart<S>(g: Graph<S>, cache: Cache<S>, root: Node)
    requires g.WellFormed() && root in g.succ && root !in cache
    ensures Sane(g, Config([(root, false)], {}, cache))
  {
  }

  // every search ends

  lemma {:induction false} RoundsEnd<S>(g: Graph<S>, c: Config<S>) returns (n: nat)
    requires g.WellFormed()
    ensures Rounds(g, c, n).stack == []
    decreases VisitsLeft(g, c.visited), |c.stack|
  {
    n := 0;
    if c.stack != [] {
      var x := c.stack[|c.stack| - 1];
      var d := RoundOf(g, c);
      if x !in c.visited && x.0 in g.succ { FewerVisits(g, c.visited, x); }
      var m := RoundsEnd(g, d);
      assert Rounds(g, c, 1) == d;
      RoundsAdd(g, c, 1, m);
      n := m + 1;
    }
  }

  // ---------- an entry that is finished too early ----------

  lemma NoSiteRound<S>(g: Graph<S>, c: Config<S>, v: Node, s: S)
    requires Sane(g, c) && NoSite(g, c.cache, v, s)
    ensures ((v, true) in RoundOf(g, c).visited && (v, true) !in c.visited) || NoSite(g, RoundOf(g, c).cache, v, s)
  {
    if c.stack != [] {
      var rest, x := c.stack[..|c.stack| - 1], c.stack[|c.stack| - 1];
      assert c.stack == rest + [x];
      RoundCases(g, c, rest, x);
      hide Sane, RoundOf, Merge, PushAll, NoSite, ShowsWithout;
      if x !in c.visited && x.1 && x.0 != v {
        assert g.WellFormed() by { SaneGraph(g, c); }
        MergeHasNoSite(g, c.cache, x.0, v, s);
      }
    }
  }

  /** Entries never change. */
  lemma EntryStays<S>(g: Graph<S>, c: Config<S>, n: Node)
    requires Sane(g, c) && (n, true) in c.visited
    ensures var d := RoundOf(g, c); (n, true) in d.visited && n in c.cache && n in d.cache && d.cache[n] == c.cache[n]
  {
    if c.stack != [] {
      var rest, x := c.stack[..|c.stack| - 1], c.stack[|c.stack| - 1];
      assert c.stack == rest + [x];
      RoundCases(g, c, rest, x);
    }
  }

  // a cycle through the queried value

  /** In a query for `v`: its second visit is at the bottom of the stack, and what it
      belongs to is not cached; in the end the entry of its neighbour `w` misses `s`. */
  ghost predicate OnCycle<S>(g: Graph<S>, c: Config<S>, v: Node, w: Node, s: S) {
    && Sane(g, c) && (v, false) in c.visited
    && if (v, true) in c.visited then c.stack == [] && w in c.cache && s !in c.cache[w]
       else
         && c.stack != [] && c.stack[0] == (v, true)
         && NeighboursAbove(g, c.stack, c.cache.Keys, 0) && NoSite(g, c.cache, v, s)
  }

  lemma OnCycleStart<S>(g: Graph<S>, cache: Cache<S>, v: Node, w: Node, s: S)
    requires g.WellFormed() && v in g.succ && v !in cache && NoSite(g, cache, v, s)
    ensures OnCycle(g, RoundOf(g, Config([(v, false)], {}, cache)), v, w, s)
  {
    var c := Config([(v, false)], {}, cache);
    SaneStart(g, cache, v);
    SaneRound(g, c);
    assert c.stack == [] + [(v, false)];
    RoundCases(g, c, [], (v, false));
    hide Sane, RoundOf, PushAll, NoSite, Graph.WellFormed;
    var stack := PushAll([] + [(v, true)], cache.Keys, g.succ[v]);
    PushAllPrefix([] + [(v, true)], cache.Keys, g.succ[v]);
    assert stack[0] == (v, true);
    forall x | x in g.succ[v] && x != v && x !in cache ensures IsAbove(stack, 0, x) {
      assert (x, false) in stack;
    }
  }

  lemma BottomPop<S>(g: Graph<S>, c: Config<S>, rest: seq<Visit>, x: Visit)
    requires Sane(g, c) && c.stack == rest + [x] && x in c.visited && !x.1 && rest != []
    requires NeighboursAbove(g, c.stack, c.cache.Keys, 0)
    ensures NeighboursAbove(g, rest, c.cache.Keys, 0)
  {
    Prefix(rest, x);
    var u := rest[0].0;
    forall y | y in g.succ[u] && y != u && y !in c.cache ensures IsAbove(rest, 0, y) {
      if y == x.0 {
        assert (y, true) in c.stack;
        assert (y, true) in rest;
        var p :| 0 <= p < |rest| && rest[p] == (y, true);
        assert p != 0;
      } else {
        AbovePop(rest, x, 0, y);
      }
    }
  }

  lemma BottomSecond<S>(g: Graph<S>, rest: seq<Visit>, x: Visit, cached: set<Node>)
    requires NeighboursAbove(g, rest + [x], cached, 0) && rest != []
    ensures NeighboursAbove(g, rest, cached + {x.0}, 0)
  {
    Prefix(rest, x);
    var u := rest[0].0;
    assert (rest + [x])[0] == rest[0];
    forall y | y in g.succ[u] && y != u && y !in cached + {x.0} ensures IsAbove(rest, 0, y) {
      AbovePop(rest, x, 0, y);
    }
  }

  lemma BottomFirst<S>(g: Graph<S>, rest: seq<Visit>, v: Node, cached: set<Node>, xs: seq<Node>)
    requires NeighboursAbove(g, rest + [(v, false)], cached, 0) && rest != []
    ensures PushAll(rest + [(v, true)], cached, xs) != [] && PushAll(rest + [(v, true)], cached, xs)[0] == rest[0]
    ensures NeighboursAbove(g, PushAll(rest + [(v, true)], cached, xs), cached, 0)
  {
    Prefix(rest, (v, false));
    Prefix(rest, (v, true));
    var again, stack := rest + [(v, true)], PushAll(rest + [(v, true)], cached, xs);
    PushAllPrefix(again, cached, xs);
    hide PushAll;
    assert forall k | 0 <= k < |again| :: stack[k] == again[k];
    var u := rest[0].0;
    assert (rest + [(v, false)])[0] == rest[0];
    forall y | y in g.succ[u] && y != u && y !in cached ensures IsAbove(stack, 0, y) {
      var p :| 0 < p < |rest + [(v, false)]| && (rest + [(v, false)])[p].0 == y;
      assert stack[p].0 == y;
    }
  }

  lemma BottomLeft<S>(g: Graph<S>, v: Node, cached: set<Node>, w: Node)
    requires NeighboursAbove(g, [(v, true)], cached, 0) && v in g.succ && w in g.succ[v] && w != v
    ensures w in cached
  {
  }

  lemma TopIsNotBottom<S>(g: Graph<S>, c: Config<S>, rest: seq<Visit>, x: Visit)
    requires Sane(g, c) && c.stack == rest + [x] && rest != []
    ensures c.stack[0] == rest[0] && x != rest[0]
  {
    Prefix(rest, x);
  }

  lemma OnCycleRound<S>(g: Graph<S>, c: Config<S>, v: Node, w: Node, s: S)
    requires OnCycle(g, c, v, w, s) && v in g.succ && w in g.succ[v] && w != v && !ShowsWithout(g, v, w, s)
    ensures OnCycle(g, RoundOf(g, c), v, w, s)
  {
    hide Sane, RoundOf, Merge, PushAll, NoSite, ShowsWithout, NeighboursAbove;
    SaneRound(g, c);
    assert g.WellFormed() by { SaneGraph(g, c); }
    if c.stack == [] {
      EmptyRound(g, c);
    } else {
      var rest, x := c.stack[..|c.stack| - 1], c.stack[|c.stack| - 1];
      assert c.stack == rest + [x];
      RoundCases(g, c, rest, x);
      NoSiteRound(g, c, v, s);
      if rest == [] {
        assert c.stack == [(v, true)];
        BottomLeft(g, v, c.cache.Keys, w);
        assert s !in c.cache[w] by { EntryHasNoSite(g, c.cache, v, w, s); }
      } else {
        TopIsNotBottom(g, c, rest, x);
        if x in c.visited {
          BottomPop(g, c, rest, x);
        } else if x.1 {
          BottomSecond(g, rest, x, c.cache.Keys);
          assert AfterSecond(g, c, rest, x.0).cache.Keys == c.cache.Keys + {x.0};
        } else {
          BottomFirst(g, rest, x.0, c.cache.Keys, g.succ[x.0]);
        }
      }
    }
  }

  lemma EmptyRound<S>(g: Graph<S>, c: Config<S>)
    requires g.WellFormed() && c.stack == []
    ensures RoundOf(g, c) == c
  {
  }

  lemma EntryHasNoSite<S>(g: Graph<S>, cache: Cache<S>, v: Node, w: Node, s: S)
    requires NoSite(g, cache, v, s) && w in cache && !ShowsWithout(g, v, w, s)
    ensures s !in cache[w]
  {
  }

  lemma {:induction false} OnCycleRounds<S>(g: Graph<S>, c: Config<S>, v: Node, w: Node, s: S, n: nat)
    requires g.WellFormed() && OnCycle(g, c, v, w, s)
    requires v in g.succ && w in g.succ[v] && w != v && !ShowsWithout(g, v, w, s)
    ensures OnCycle(g, Rounds(g, c, n), v, w, s)
  {
    hide OnCycle, RoundOf, ShowsWithout;
    if n > 0 {
      OnCycleRounds(g, c, v, w, s, n - 1);
      OnCycleRound(g, Rounds(g, c, n - 1), v, w, s);
    }
  }

  /** The result of a query is that of the rounds after its first. */
  lemma AfterFirstRound<S>(g: Graph<S>, cache: Cache<S>, root: Node, cache': Cache<S>) returns (n: nat)
    requires g.WellFormed() && RunsTo(g, cache, root, cache')
    ensures var d := Rounds(g, RoundOf(g, Config([(root, false)], {}, cache)), n); d.stack == [] && d.cache == cache'
  {
    hide RoundOf;
    var c := Config([(root, false)], {}, cache);
    var k: nat :| RunsToIn(g, cache, root, cache', k);
    assert Rounds(g, c, 0) == c;
    n := k - 1;
    RoundsAdd(g, c, 1, n);
    assert Rounds(g, c, 1) == RoundOf(g, c);
  }

  /** A query for a value `v` on a cycle: the entry of its neighbour `w` on the cycle
      misses every site to which `w` leads through `v` only. */
  lemma CycleLosesSites<S>(g: Graph<S>, cache: Cache<S>, v: Node, w: Node, s: S, cache': Cache<S>)
    requires g.WellFormed() && ExactCache(g, cache) && ClosedCache(g, cache)
    requires v in g.succ && v !in cache && w in g.succ[v] && w != v && Reaches(g, cache.Keys, w, v)
    requires s in Sites(g, v) && !ShowsWithout(g, v, w, s)
    requires RunsTo(g, cache, v, cache')
    ensures w in cache' && w in g.succ && s in Sites(g, w) && s !in cache'[w]
  {
    CachedHaveNoSite(g, cache, v, s);
    ReachesUnblocked(g, cache.Keys, w, v);
    SitesTransitive(g, w, v);
    hide RoundOf, Rounds, ExactCache, ClosedCache, RunsTo, NoSite, ShowsWithout, NeighboursAbove, Sane, Reaches, Sites;
    OnCycleStart(g, cache, v, w, s);
    var n := AfterFirstRound(g, cache, v, cache');
    OnCycleRounds(g, RoundOf(g, Config([(v, false)], {}, cache)), v, w, s, n);
  }

  // a neighbour out of order

  ghost predicate WaitsUnder<S>(c: Config<S>, w: Node, x: Node) {
    exists p, q :: 0 <= p < q < |c.stack| && c.stack[p] == (w, false) && c.stack[q].0 == x &&
        ((x, false) in c.visited ==> c.stack[q].1)
  }

  /** While `w` waits for its first visit below `x`, nothing of `w` is cached; in the
      end the entry of `x` misses `s`. */
  ghost predicate OutOfOrder<S>(g: Graph<S>, c: Config<S>, w: Node, x: Node, s: S) {
    && Sane(g, c)
    && if (x, true) in c.visited then x in c.cache && s !in c.cache[x]
       else (w, false) !in c.visited && NoSite(g, c.cache, w, s) && WaitsUnder(c, w, x)
  }

  lemma {:induction false} PushedInOrder(stack: seq<Visit>, cached: set<Node>, xs: seq<Node>, i: nat,
                                         j: nat) returns (p: nat, q: nat)
    requires i < j < |xs| && FirstAt(xs, j) && xs[i] !in cached && xs[j] !in cached && (xs[j], false) !in stack
    ensures p < q < |PushAll(stack, cached, xs)|
    ensures PushAll(stack, cached, xs)[p] == (xs[i], false) && PushAll(stack, cached, xs)[q] == (xs[j], false)
    decreases |xs|
  {
    var front := xs[..|xs| - 1];
    PushAllPrefix(stack, cached, front);
    var before := PushAll(stack, cached, front);
    if j < |xs| - 1 {
      assert front[..j] == xs[..j];
      p, q := PushedInOrder(stack, cached, front, i, j);
    } else {
      assert front[i] == xs[i] && front == xs[..j];
      assert (xs[i], false) in before && (xs[j], false) !in before;
      p :| p < |before| && before[p] == (xs[i], false);
      q := |before|;
    }
  }

  lemma OutOfOrderStart<S>(g: Graph<S>, cache: Cache<S>, v: Node, i: nat, j: nat, w: Node, x: Node, s: S)
    requires g.WellFormed() && v in g.succ && v !in cache && NoSite(g, cache, w, s)
    requires WaitsBelow(g, cache.Keys, v, i, j, w, x) && w != v
    ensures OutOfOrder(g, RoundOf(g, Config([(v, false)], {}, cache)), w, x, s)
  {
    var c := Config([(v, false)], {}, cache);
    SaneStart(g, cache, v);
    SaneRound(g, c);
    assert c.stack == [] + [(v, false)];
    RoundCases(g, c, [], (v, false));
    hide Sane, RoundOf, PushAll, NoSite, Graph.WellFormed;
    var p, q := PushedInOrder([] + [(v, true)], cache.Keys, g.succ[v], i, j);
  }

  lemma StillWaitsUnder<S>(c: Config<S>, d: Config<S>, rest: seq<Visit>, y: Visit, w: Node, x: Node)
    requires WaitsUnder(c, w, x) && c.stack == rest + [y] && y.0 != x && rest <= d.stack
    requires (x, false) in d.visited ==> (x, false) in c.visited
    ensures WaitsUnder(d, w, x)
  {
    Prefix(rest, y);
    var p, q :| 0 <= p < q < |c.stack| && c.stack[p] == (w, false) && c.stack[q].0 == x &&
        ((x, false) in c.visited ==> c.stack[q].1);
    assert d.stack[p] == rest[p] && d.stack[q] == rest[q];
  }

  /** The entry of `x` that waits above `w` is not the one on top, or it is. */
  lemma OnlyOneEntry<S>(g: Graph<S>, c: Config<S>, rest: seq<Visit>, y: Visit, w: Node, x: Node)
    requires Sane(g, c) && c.stack == rest + [y] && WaitsUnder(c, w, x) && (x, true) !in c.visited &&
             (w, false) !in c.visited
    ensures y != (w, false) && y != (w, true)
    ensures y == (x, true) || y == (x, false) || y.0 != x
    ensures y == (x, false) && y !in c.visited ==> exists p :: 0 <= p < |rest| && rest[p] == (w, false)
  {
    Prefix(rest, y);
    assert y in c.stack;
    if y.0 == x { assert y == if y.1 then (x, true) else (x, false); }
    var p, q :| 0 <= p < q < |c.stack| && c.stack[p] == (w, false) && c.stack[q].0 == x &&
        ((x, false) in c.visited ==> c.stack[q].1);
    assert c.stack[p] != c.stack[|rest|];
    assert rest[p] == (w, false);
  }

  lemma FirstVisitOfUpper<S>(g: Graph<S>, c: Config<S>, rest: seq<Visit>, w: Node, x: Node)
    requires x in g.succ && exists p :: 0 <= p < |rest| && rest[p] == (w, false)
    ensures WaitsUnder(AfterFirst(g, c, rest, x), w, x)
  {
    var again := rest + [(x, true)];
    PushAllPrefix(again, c.cache.Keys, g.succ[x]);
    var d := AfterFirst(g, c, rest, x);
    var p :| 0 <= p < |rest| && rest[p] == (w, false);
    assert again[p] == (w, false) && again[|rest|] == (x, true);
    assert d.stack[p] == (w, false) && d.stack[|rest|] == (x, true);
  }

  /** A dropped entry of `x` lies above the one that waits above `w`. */
  lemma PopUpper<S>(g: Graph<S>, c: Config<S>, rest: seq<Visit>, w: Node, x: Node)
    requires Sane(g, c) && c.stack == rest + [(x, false)] && WaitsUnder(c, w, x) && (x, false) in c.visited
    ensures WaitsUnder(c.(stack := rest), w, x)
  {
    Prefix(rest, (x, false));
    var p, q :| 0 <= p < q < |c.stack| && c.stack[p] == (w, false) && c.stack[q].0 == x &&
        ((x, false) in c.visited ==> c.stack[q].1);
    assert q < |rest|;
    assert rest[p] == c.stack[p] && rest[q] == c.stack[q];
  }

  lemma OutOfOrderRound<S>(g: Graph<S>, c: Config<S>, w: Node, x: Node, s: S)
    requires OutOfOrder(g, c, w, x, s) && w != x && !ShowsWithout(g, w, x, s)
    ensures OutOfOrder(g, RoundOf(g, c), w, x, s)
  {
    hide Sane, RoundOf, Merge, PushAll, NoSite, ShowsWithout, WaitsUnder;
    SaneRound(g, c);
    assert g.WellFormed() by { SaneGraph(g, c); }
    if c.stack == [] {
      EmptyRound(g, c);
    } else if (x, true) in c.visited {
      EntryStays(g, c, x);
    } else {
      var rest, y := c.stack[..|c.stack| - 1], c.stack[|c.stack| - 1];
      assert c.stack == rest + [y];
      RoundCases(g, c, rest, y);
      NoSiteRound(g, c, w, s);
      OnlyOneEntry(g, c, rest, y, w, x);
      var d := RoundOf(g, c);
      if y.0 != x {
        if y !in c.visited && !y.1 { PushAllPrefix(rest + [(y.0, true)], c.cache.Keys, g.succ[y.0]); }
        StillWaitsUnder(c, d, rest, y, w, x);
      } else if y == (x, true) {
        assert d.visited == c.visited + {y} || y in c.visited;
        if (x, true) in d.visited {
          EntryHasNoSite(g, d.cache, w, x, s);
        }
      } else if y in c.visited {
        PopUpper(g, c, rest, w, x);
      } else {
        FirstVisitOfUpper(g, c, rest, w, x);
      }
    }
  }

  lemma {:induction false} OutOfOrderRounds<S>(g: Graph<S>, c: Config<S>, w: Node, x: Node, s: S, n: nat)
    requires g.WellFormed() && OutOfOrder(g, c, w, x, s) && w != x && !ShowsWithout(g, w, x, s)
    ensures OutOfOrder(g, Rounds(g, c, n), w, x, s)
  {
    hide OutOfOrder, RoundOf, ShowsWithout;
    if n > 0 {
      OutOfOrderRounds(g, c, w, x, s, n - 1);
      OutOfOrderRound(g, Rounds(g, c, n - 1), w, x, s);
    }
  }

  lemma OutOfOrderEnds<S>(g: Graph<S>, c: Config<S>, w: Node, x: Node, s: S)
    requires OutOfOrder(g, c, w, x, s) && c.stack == []
    ensures x in c.cache && s !in c.cache[x]
  {
  }

  /** A query for a value with a neighbour `x` that leads to an earlier neighbour `w`:
      the entry of `x` misses every site to which `x` leads through `w` only. */
  lemma OrderLosesSites<S>(g: Graph<S>, cache: Cache<S>, v: Node, i: nat, j: nat, w: Node, x: Node, s: S,
                           cache': Cache<S>)
    requires g.WellFormed() && ExactCache(g, cache) && ClosedCache(g, cache)
    requires v in g.succ && v !in cache && WaitsBelow(g, cache.Keys, v, i, j, w, x) && w != v
    requires Reaches(g, cache.Keys, x, w) && s in Sites(g, w) && !ShowsWithout(g, w, x, s)
    requires RunsTo(g, cache, v, cache')
    ensures x in cache' && x in g.succ && s in Sites(g, x) && s !in cache'[x]
  {
    assert w != x;
    CachedHaveNoSite(g, cache, w, s);
    ReachesUnblocked(g, cache.Keys, x, w);
    SitesTransitive(g, x, w);
    hide RoundOf, Rounds, ExactCache, ClosedCache, RunsTo, NoSite, ShowsWithout, WaitsUnder, Sane, Reaches, Sites,
        WaitsBelow;
    OutOfOrderStart(g, cache, v, i, j, w, x, s);
    var n := AfterFirstRound(g, cache, v, cache');
    OutOfOrderRounds(g, RoundOf(g, Config([(v, false)], {}, cache)), w, x, s, n);
    OutOfOrderEnds(g, Rounds(g, RoundOf(g, Config([(v, false)], {}, cache)), n), w, x, s);
  }

  /** With exact caches no query leaves an inexact entry. */
  ghost predicate AlwaysExact<S(!new)>(g: Graph<S>, cache: Cache<S>)
    requires g.WellFormed()
  {
    forall root, cache' | root in g.succ && root !in cache && RunsTo(g, cache, root, cache') :: ExactCache(g, cache')
  }

  lemma QueryEnds<S>(g: Graph<S>, cache: Cache<S>, root: Node) returns (cache': Cache<S>)
    requires g.WellFormed()
    ensures RunsTo(g, cache, root, cache')
  {
    var c := Config([(root, false)], {}, cache);
    var n := RoundsEnd(g, c);
    cache' := Rounds(g, c, n).cache;
    assert RunsToIn(g, cache, root, cache', n);
  }

  lemma WaitsApart<S>(g: Graph<S>, cached: set<Node>, u: Node, i: int, j: int, w: Node, c: Node)
    requires g.WellFormed() && WaitsBelow(g, cached, u, i, j, w, c)
    ensures w in g.succ && c in g.succ && w != c
  {
  }

  lemma AlwaysExactNeedsOrder<S(!new)>(g: Graph<S>, cache: Cache<S>)
    requires g.WellFormed() && ExactCache(g, cache) && ClosedCache(g, cache) && Separated(g, cache)
    requires AlwaysExact(g, cache)
    ensures Orderly(g, cache.Keys, Uncached(g, cache))
  {
    hide Reaches, ClosedCache, ShowsWithout, Sites, RunsTo, FirstAt;
    var cached, within := cache.Keys, Uncached(g, cache);
    forall u, w | u in within && u in g.succ && w in g.succ[u] && w != u && w !in cached
      ensures !Reaches(g, cached, w, u)
    {
      if Reaches(g, cached, w, u) {
        assert HasSiteBeyond(g, w, u);
        var s :| s in Sites(g, u) && !ShowsWithout(g, u, w, s);
        var cache' := QueryEnds(g, cache, u);
        CycleLosesSites(g, cache, u, w, s, cache');
      }
    }
    forall u, i, j, w, x | u in within && WaitsBelow(g, cached, u, i, j, w, x) ensures !Reaches(g, cached, x, w) {
      if Reaches(g, cached, x, w) {
        WaitsApart(g, cached, u, i, j, w, x);
        assert HasSiteBeyond(g, x, w);
        var s :| s in Sites(g, w) && !ShowsWithout(g, w, x, s);
        var cache' := QueryEnds(g, cache, u);
        if w == u {
          CycleLosesSites(g, cache, u, x, s, cache');
        } else {
          OrderLosesSites(g, cache, u, i, j, w, x, s, cache');
        }
      }
    }
  }

  /** If values are separated by their sites: no query leaves an inexact entry exactly
      if the uncached values are orderly. */
  lemma AlwaysExactIff<S(!new)>(g: Graph<S>, cache: Cache<S>)
    requires g.WellFormed() && ExactCache(g, cache) && ClosedCache(g, cache) && Separated(g, cache)
    ensures AlwaysExact(g, cache) <==> Orderly(g, cache.Keys, Uncached(g, cache))
  {
    hide Orderly, ExactCache, ClosedCache, Separated, RunsTo;
    if AlwaysExact(g, cache) {
      AlwaysExactNeedsOrder(g, cache);
    }
    if Orderly(g, cache.Keys, Uncached(g, cache)) {
      OrderlyIsExact(g, cache);
    }
  }

  lemma OrderlyIsExact<S(!new)>(g: Graph<S>, cache: Cache<S>)
    requires g.WellFormed() && ExactCache(g, cache) && Orderly(g, cache.Keys, Uncached(g, cache))
    ensures AlwaysExact(g, cache)
  {
    hide Orderly, ExactCache, RunsTo;
    forall root, cache' | root in g.succ && root !in cache && RunsTo(g, cache, root, cache')
      ensures ExactCache(g, cache')
    {
      RegionIsUncached(g, cache, root);
      OrderlyKeepsExact(g, cache, root, Uncached(g, cache), cache');
    }
  }

  // ---------- whatever the sites are ----------

  /** On these neighbours, with these values cached, queries keep caches exact
      whichever sites the values own. */
  ghost predicate ExactForAllSites(succ: map<Node, seq<Node>>, cached: set<Node>) {
    forall own: map<Node, set<nat>>, cache: Cache<nat> |
      own.Keys == succ.Keys && cache.Keys == cached && Graph(succ, own).WellFormed() &&
      ExactCache(Graph(succ, own), cache) :: AlwaysExact(Graph(succ, own), cache)
  }

  /** Each value owns itself. */
  function Labelled(succ: map<Node, seq<Node>>): Graph<nat> {
    Graph(succ, map n | n in succ :: {n})
  }

  lemma SameReach(g: Graph<nat>, h: Graph<nat>, blocked: set<Node>, u: Node, v: Node)
    requires g.succ == h.succ
    ensures Reaches(g, blocked, u, v) <==> Reaches(h, blocked, u, v)
  {
    forall path | IsPath(g, blocked, path) ensures IsPath(h, blocked, path) {}
    forall path | IsPath(h, blocked, path) ensures IsPath(g, blocked, path) {}
  }

  lemma SameOrder(g: Graph<nat>, h: Graph<nat>, cached: set<Node>, within: set<Node>)
    requires g.succ == h.succ && Orderly(g, cached, within)
    ensures Orderly(h, cached, within)
  {
    hide Reaches, FirstAt;
    forall u, v ensures Reaches(g, cached, u, v) <==> Reaches(h, cached, u, v) { SameReach(g, h, cached, u, v); }
    forall u, i, j, w, c | u in within && WaitsBelow(h, cached, u, i, j, w, c) ensures !Reaches(h, cached, c, w) {
      assert WaitsBelow(g, cached, u, i, j, w, c);
    }
  }

  lemma LabelsSeparate(succ: map<Node, seq<Node>>, cache: Cache<nat>)
    requires Labelled(succ).WellFormed()
    ensures Separated(Labelled(succ), cache)
  {
    var g := Labelled(succ);
    forall a, b | a in g.succ && a != b && Reaches(g, cache.Keys, b, a) ensures HasSiteBeyond(g, b, a) {
      ReachesSelf(g, {}, a);
      assert a in g.own[a];
      assert a in Sites(g, a);
      assert !ShowsWithout(g, a, b, a);
    }
  }

  /** The order alone decides: queries keep exact caches exact whichever sites the
      values own, exactly if the uncached values are orderly. */
  lemma ExactForAllSitesIff(succ: map<Node, seq<Node>>, cached: set<Node>)
    requires Labelled(succ).WellFormed() && cached <= succ.Keys
    requires forall n, w | n in cached && w in succ[n] :: w in cached
    ensures ExactForAllSites(succ, cached) <==> Orderly(Labelled(succ), cached, succ.Keys - cached)
  {
    hide Orderly, ExactCache, AlwaysExact, Separated;
    var g := Labelled(succ);
    if ExactForAllSites(succ, cached) {
      var cache: Cache<nat> := map n | n in cached :: Sites(g, n);
      assert ExactCache(g, cache) by { AllExact(g, cached); }
      LabelsSeparate(succ, cache);
      assert Graph(succ, g.own) == g && cache.Keys == cached && Uncached(g, cache) == succ.Keys - cached;
      AlwaysExactNeedsOrder(g, cache);
    } else if Orderly(g, cached, succ.Keys - cached) {
      forall own: map<Node, set<nat>>, cache: Cache<nat> | own.Keys == succ.Keys && cache.Keys == cached &&
        Graph(succ, own).WellFormed() && ExactCache(Graph(succ, own), cache)
        ensures AlwaysExact(Graph(succ, own), cache)
      {
        var h := Graph(succ, own);
        SameOrder(g, h, cached, succ.Keys - cached);
        assert Uncached(h, cache) == succ.Keys - cached;
        OrderlyIsExact(h, cache);
      }
    }
  }

  lemma AllExact(g: Graph<nat>, cached: set<Node>)
    requires g.WellFormed() && cached <= g.succ.Keys
    ensures ExactCache(g, map n | n in cached :: Sites(g, n))
  {
  }
}
