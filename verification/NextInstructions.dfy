/** Collecting the instructions that come next, in any program: a block may also end
    with a call to an intrinsic, and then the search goes on in its successors. */
module NextInstructions {
  import opened ICFG
  import opened Sequences

  /** Following intrinsics from `u` ends after at most `n` of them. */
  ghost predicate EndsWithin(p: Program, u: Loc, n: nat)
    decreases n
  {
    forall v | Step(p, u, v) && At(p, v).Intrinsic? :: n > 0 && EndsWithin(p, v, n - 1)
  }

  /** Collecting what comes next ends. */
  ghost predicate Ends(p: Program, u: Loc) {
    exists n: nat :: EndsWithin(p, u, n)
  }

  lemma NextIsStep(p: Program, u: Loc, v: Loc)
    requires Formed(p) && IsLoc(p, u)
    ensures Step(p, u, v) <==>
              if IsTerminator(p, u) then
                v.fun == u.fun && v.idx == 0 && exists k | 0 <= k < |BlockOf(p, u).succs| ::
                    v.block == BlockOf(p, u).succs[k]
              else v == u.(idx := u.idx + 1)
  {
    assert FormedBlock(p, u.fun, p[u.fun].blocks[u.block]);
    if IsTerminator(p, u) && v.block in BlockOf(p, u).succs && v.fun == u.fun && v.idx == 0 {
      assert FormedBlock(p, u.fun, p[u.fun].blocks[v.block]);
    }
  }

  lemma SuccStep(p: Program, u: Loc, k: nat)
    requires Formed(p) && IsLoc(p, u) && IsTerminator(p, u) && k < |BlockOf(p, u).succs|
    ensures Step(p, u, Loc(u.fun, BlockOf(p, u).succs[k], 0))
  {
    NextIsStep(p, u, Loc(u.fun, BlockOf(p, u).succs[k], 0));
  }

  /** The instructions that come next, in the order in which they are found. */
  ghost function NextFrom(p: Program, u: Loc, n: nat): seq<Loc>
    requires Formed(p) && IsLoc(p, u) && EndsWithin(p, u, n)
    decreases n, |BlockOf(p, u).succs| + 1
  {
    if IsTerminator(p, u) then NextFromSuccs(p, u, n, |BlockOf(p, u).succs|)
    else
      var v := u.(idx := u.idx + 1);
      NextIsStep(p, u, v);
      if At(p, v).Intrinsic? then NextFrom(p, v, n - 1) else [v]
  }

  ghost function NextFromSuccs(p: Program, u: Loc, n: nat, k: nat): seq<Loc>
    requires Formed(p) && IsLoc(p, u) && EndsWithin(p, u, n) && IsTerminator(p, u) && k <= |BlockOf(p, u).succs|
    decreases n, k
  {
    if k == 0 then []
    else
      var v := Loc(u.fun, BlockOf(p, u).succs[k - 1], 0);
      SuccStep(p, u, k - 1);
      NextFromSuccs(p, u, n, k - 1) + if At(p, v).Intrinsic? then NextFrom(p, v, n - 1) else [v]
  }

  // ---------- the list is complete and exact ----------

  /** What comes next is what comes next after one step, if that is an intrinsic. */
  lemma FollowsIff(p: Program, u: Loc, x: Loc)
    requires Formed(p) && IsLoc(p, u)
    ensures Follows(p, u, x) <==>
              exists v | Step(p, u, v) :: if At(p, v).Intrinsic? then Follows(p, v, x) else v == x
  {
    if Follows(p, u, x) {
      var path: seq<Loc> :| ThroughIntrinsics(p, u, x, path);
      var v := path[1];
      assert Step(p, path[0], path[1]);
      if At(p, v).Intrinsic? {
        assert ThroughIntrinsics(p, v, x, path[1..]);
      }
    }
    if v :| Step(p, u, v) && if At(p, v).Intrinsic? then Follows(p, v, x) else v == x {
      if At(p, v).Intrinsic? {
        var path: seq<Loc> :| ThroughIntrinsics(p, v, x, path);
        LongerPath(p, u, v, x, path);
      } else {
        assert ThroughIntrinsics(p, u, x, [u, v]);
      }
    }
  }

  lemma LongerPath(p: Program, u: Loc, v: Loc, x: Loc, path: seq<Loc>)
    requires Step(p, u, v) && At(p, v).Intrinsic? && ThroughIntrinsics(p, v, x, path)
    ensures ThroughIntrinsics(p, u, x, [u] + path)
  {
    var longer := [u] + path;
    forall k | 0 <= k < |longer| - 1 ensures Step(p, longer[k], longer[k + 1]) {
      if k > 0 { assert Step(p, path[k - 1], path[k]); }
    }
  }

  /** The list holds exactly the instructions that follow `u` when intrinsics are
      erased, wherever these stand. */
  lemma {:induction false} NextFromIff(p: Program, u: Loc, n: nat, x: Loc)
    requires Formed(p) && IsLoc(p, u) && EndsWithin(p, u, n)
    ensures x in NextFrom(p, u, n) <==> Follows(p, u, x)
    decreases n
  {
    hide Follows, Formed;
    FollowsIff(p, u, x);
    forall v | Step(p, u, v) && At(p, v).Intrinsic? ensures x in NextFrom(p, v, n - 1) <==> Follows(p, v, x) {
      NextFromIff(p, v, n - 1, x);
    }
    if IsTerminator(p, u) {
      InSuccsIff(p, u, n, |BlockOf(p, u).succs|, x);
      if j: nat :| j < |BlockOf(p, u).succs| && FoundThrough(p, u, n, j, x) {
        SuccStep(p, u, j);
      }
      if v :| Step(p, u, v) && if At(p, v).Intrinsic? then Follows(p, v, x) else v == x {
        NextIsStep(p, u, v);
        var j: nat :| j < |BlockOf(p, u).succs| && v.block == BlockOf(p, u).succs[j];
        assert FoundThrough(p, u, n, j, x);
      }
    } else {
      NextIsStep(p, u, u.(idx := u.idx + 1));
    }
  }

  lemma {:induction false} InSuccsIff(p: Program, u: Loc, n: nat, k: nat, x: Loc)
    requires Formed(p) && IsLoc(p, u) && EndsWithin(p, u, n) && IsTerminator(p, u) && k <= |BlockOf(p, u).succs|
    ensures x in NextFromSuccs(p, u, n, k) <==>
              exists j: nat :: j < k && FoundThrough(p, u, n, j, x)
  {
    if k > 0 {
      InSuccsIff(p, u, n, k - 1, x);
      assert x in NextFromSuccs(p, u, n, k) <==> x in NextFromSuccs(p, u, n, k - 1) || FoundThrough(p, u, n, k - 1, x);
    }
  }

  ghost predicate FoundThrough(p: Program, u: Loc, n: nat, j: nat, x: Loc)
    requires Formed(p) && IsLoc(p, u) && EndsWithin(p, u, n) && IsTerminator(p, u) && j < |BlockOf(p, u).succs|
  {
    var v := Loc(u.fun, BlockOf(p, u).succs[j], 0);
    SuccStep(p, u, j);
    if At(p, v).Intrinsic? then x in NextFrom(p, v, n - 1) else v == x
  }

  lemma NextDown(p: Program, u: Loc, n: nat)
    requires Formed(p) && IsLoc(p, u) && EndsWithin(p, u, n) && !IsTerminator(p, u)
    ensures var v := u.(idx := u.idx + 1);
      && IsLoc(p, v) && (At(p, v).Intrinsic? ==> n > 0 && EndsWithin(p, v, n - 1))
      && NextFrom(p, u, n) == if At(p, v).Intrinsic? then NextFrom(p, v, n - 1) else [v]
  {
    NextIsStep(p, u, u.(idx := u.idx + 1));
  }

  lemma NextAcross(p: Program, u: Loc, n: nat, k: nat)
    requires Formed(p) && IsLoc(p, u) && EndsWithin(p, u, n) && IsTerminator(p, u) && k < |BlockOf(p, u).succs|
    ensures var v := Loc(u.fun, BlockOf(p, u).succs[k], 0);
      && IsLoc(p, v) && (At(p, v).Intrinsic? ==> n > 0 && EndsWithin(p, v, n - 1))
      && NextFromSuccs(p, u, n, k + 1) ==
         NextFromSuccs(p, u, n, k) + if At(p, v).Intrinsic? then NextFrom(p, v, n - 1) else [v]
  {
    SuccStep(p, u, k);
  }

  /** Appends the instructions that come next after `u` to the caller's list. */
  method GetNextInsts(p: Program, u: Loc, instList: seq<Loc>, ghost n: nat) returns (r: seq<Loc>)
    requires Formed(p) && IsLoc(p, u) && EndsWithin(p, u, n)
    ensures r == instList + NextFrom(p, u, n)
    decreases n
  {
    hide Formed, EndsWithin, NextFromSuccs;
    if !IsTerminator(p, u) {
      var next := u.(idx := u.idx + 1);
      NextDown(p, u, n);
      if At(p, next).Intrinsic? {
        r := GetNextInsts(p, next, instList, n - 1);
      } else {
        r := instList + [next];
      }
    } else {
      r := instList;
      var succs := BlockOf(p, u).succs;
      assert NextFromSuccs(p, u, n, 0) == [] by { NoSuccs(p, u, n); }
      var k := 0;
      while k < |succs|
        invariant k <= |succs| && r == instList + NextFromSuccs(p, u, n, k)
      {
        NextAcross(p, u, n, k);
        var next := Loc(u.fun, succs[k], 0);
        if At(p, next).Intrinsic? {
          r := GetNextInsts(p, next, r, n - 1);
        } else {
          r := r + [next];
        }
        k := k + 1;
      }
    }
  }

  lemma NoSuccs(p: Program, u: Loc, n: nat)
    requires Formed(p) && IsLoc(p, u) && EndsWithin(p, u, n) && IsTerminator(p, u)
    ensures NextFromSuccs(p, u, n, 0) == []
  {
  }

  // ---------- when the search ends ----------

  /** A walk from instruction to instruction that meets only intrinsics. */
  ghost predicate IntrinsicWalk(p: Program, path: seq<Loc>) {
    && path != [] && IsLoc(p, path[0])
    && (forall k | 0 <= k < |path| - 1 :: Step(p, path[k], path[k + 1]))
    && (forall k | 0 < k < |path| :: IsLoc(p, path[k]) && At(p, path[k]).Intrinsic?)
  }

  /** No walk through intrinsics from `u` comes back to where it was. */
  ghost predicate NoLoopAfter(p: Program, u: Loc) {
    forall path | IntrinsicWalk(p, path) && path[0] == u :: Distinct(path)
  }

  lemma {:induction false} EndsAlongWalk(p: Program, path: seq<Loc>, n: nat)
    requires IntrinsicWalk(p, path) && EndsWithin(p, path[0], n)
    ensures |path| - 1 <= n && EndsWithin(p, path[|path| - 1], n - (|path| - 1))
    decreases |path|
  {
    if |path| > 1 {
      assert Step(p, path[0], path[1]);
      EndsAlongWalk(p, path[1..], n - 1);
    }
  }

  lemma {:induction false} LoopNeverEnds(p: Program, path: seq<Loc>, n: nat)
    requires IntrinsicWalk(p, path) && |path| > 1 && path[0] == path[|path| - 1]
    ensures !EndsWithin(p, path[0], n)
    decreases n
  {
    if EndsWithin(p, path[0], n) {
      EndsAlongWalk(p, path, n);
      LoopNeverEnds(p, path, n - (|path| - 1));
    }
  }

  /** If following intrinsics has not ended after `n`, there is a longer walk. */
  lemma {:induction false} LongWalk(p: Program, u: Loc, n: nat) returns (path: seq<Loc>)
    requires IsLoc(p, u) && !EndsWithin(p, u, n)
    ensures IntrinsicWalk(p, path) && path[0] == u && |path| == n + 2
    decreases n
  {
    var v :| Step(p, u, v) && At(p, v).Intrinsic? && !(n > 0 && EndsWithin(p, v, n - 1));
    if n == 0 {
      path := [u, v];
    } else {
      var rest := LongWalk(p, v, n - 1);
      path := [u] + rest;
      assert forall k | 0 < k < |path| :: path[k] == rest[k - 1];
    }
  }

  lemma {:induction false} DistinctFit(path: seq<Loc>, all: set<Loc>)
    requires Distinct(path) && forall k | 0 <= k < |path| :: path[k] in all
    ensures |path| <= |all|
  {
    if path != [] {
      var rest := path[1..];
      assert forall k | 0 <= k < |rest| :: rest[k] == path[k + 1];
      DistinctFit(rest, all - {path[0]});
    }
  }

  /** The search ends exactly if it meets no loop that consists of intrinsics. */
  lemma EndsIff(p: Program, u: Loc)
    requires IsLoc(p, u)
    ensures Ends(p, u) <==> NoLoopAfter(p, u)
  {
    if Ends(p, u) {
      var n: nat :| EndsWithin(p, u, n);
      forall path | IntrinsicWalk(p, path) && path[0] == u ensures Distinct(path) {
        EndsNoRepeats(p, path, n);
      }
    } else if NoLoopAfter(p, u) {
      EndsSoon(p, u);
    }
  }

  /** It ends soon if it ends at all. */
  lemma EndsSoon(p: Program, u: Loc)
    requires IsLoc(p, u) && NoLoopAfter(p, u)
    ensures EndsWithin(p, u, |AllLocs(p)|)
  {
    if !EndsWithin(p, u, |AllLocs(p)|) {
      var path := LongWalk(p, u, |AllLocs(p)|);
      DistinctFit(path, AllLocs(p));
    }
  }

  lemma EndsNoRepeats(p: Program, path: seq<Loc>, n: nat)
    requires IntrinsicWalk(p, path) && EndsWithin(p, path[0], n)
    ensures Distinct(path)
  {
    forall i, j | 0 <= i < j < |path| ensures path[i] != path[j] {
      if path[i] == path[j] {
        EndsAlongWalk(p, path[..i + 1], n);
        assert IntrinsicWalk(p, path[i..j + 1]);
        LoopNeverEnds(p, path[i..j + 1], n - i);
      }
    }
  }

  // ---------- the programs that are built ----------

  /** No loop of the program consists of intrinsics. */
  ghost predicate NoIntrinsicLoops(p: Program) {
    forall u | IsLoc(p, u) :: NoLoopAfter(p, u)
  }

  /** The instructions that come next after `u`. */
  ghost function NextInsts(p: Program, u: Loc): seq<Loc>
    requires Formed(p) && NoIntrinsicLoops(p) && IsLoc(p, u)
  {
    EndsSoon(p, u);
    NextFrom(p, u, |AllLocs(p)|)
  }

  /** Where control enters function `g`, intrinsics skipped. */
  ghost function EntryInsts(p: Program, g: nat): seq<Loc>
    requires Formed(p) && NoIntrinsicLoops(p) && Defined(p, g)
  {
    BlockStart(p, g, 0);
    if At(p, Loc(g, 0, 0)).Intrinsic? then NextInsts(p, Loc(g, 0, 0)) else [Loc(g, 0, 0)]
  }

  /** What the builder relies on and asserts: looking for what comes next ends, a branch
      goes to at most two instructions, and no instruction is entered twice. */
  ghost predicate WellFormed(p: Program) {
    && Formed(p) && NoIntrinsicLoops(p)
    && (forall u | IsLoc(p, u) && (At(p, u).CondBranch? || At(p, u).Branch?) :: |NextInsts(p, u)| <= 2)
    && (forall g | Defined(p, g) :: Distinct(EntryInsts(p, g)))
  }

  /** The builder's list holds exactly the instructions that follow `u`. */
  lemma NextInstsIff(p: Program, u: Loc, v: Loc)
    requires Formed(p) && NoIntrinsicLoops(p) && IsLoc(p, u)
    ensures v in NextInsts(p, u) <==> Follows(p, u, v)
  {
    EndsSoon(p, u);
    NextFromIff(p, u, |AllLocs(p)|, v);
  }

  lemma {:induction false} SameFunction(p: Program, path: seq<Loc>, k: nat)
    requires k < |path| && forall j | 0 <= j < |path| - 1 :: Step(p, path[j], path[j + 1])
    ensures path[k].fun == path[0].fun
  {
    if k > 0 {
      SameFunction(p, path, k - 1);
      assert Step(p, path[k - 1], path[k - 1 + 1]);
    }
  }

  lemma NextAreLocs(p: Program, u: Loc)
    requires Formed(p) && NoIntrinsicLoops(p) && IsLoc(p, u)
    ensures forall k | 0 <= k < |NextInsts(p, u)| ::
              var v := NextInsts(p, u)[k]; IsLoc(p, v) && v.fun == u.fun && !At(p, v).Intrinsic?
  {
    hide NextInsts, Formed, NoIntrinsicLoops;
    forall k | 0 <= k < |NextInsts(p, u)|
      ensures var v := NextInsts(p, u)[k]; IsLoc(p, v) && v.fun == u.fun && !At(p, v).Intrinsic?
    {
      var v := NextInsts(p, u)[k];
      NextInstsIff(p, u, v);
      var path: seq<Loc> :| ThroughIntrinsics(p, u, v, path);
      SameFunction(p, path, |path| - 1);
    }
  }

  lemma EntriesAreLocs(p: Program, g: nat)
    requires Formed(p) && NoIntrinsicLoops(p) && Defined(p, g)
    ensures forall k | 0 <= k < |EntryInsts(p, g)| ::
              var v := EntryInsts(p, g)[k]; IsLoc(p, v) && v.fun == g && !At(p, v).Intrinsic?
  {
    BlockStart(p, g, 0);
    NextAreLocs(p, Loc(g, 0, 0));
  }

  /** Something comes next wherever there is a next instruction or a successor, and at
      least one for each successor. */
  lemma {:induction false} NextExists(p: Program, u: Loc, n: nat)
    requires Formed(p) && IsLoc(p, u) && EndsWithin(p, u, n)
    ensures |NextFrom(p, u, n)| >= if IsTerminator(p, u) then |BlockOf(p, u).succs| else 1
    decreases n, |BlockOf(p, u).succs| + 1
  {
    assert FormedBlock(p, u.fun, p[u.fun].blocks[u.block]);
    if IsTerminator(p, u) {
      NextOfSuccsExist(p, u, n, |BlockOf(p, u).succs|);
    } else {
      var v := u.(idx := u.idx + 1);
      NextIsStep(p, u, v);
      if At(p, v).Intrinsic? { NextExists(p, v, n - 1); }
    }
  }

  lemma {:induction false} NextOfSuccsExist(p: Program, u: Loc, n: nat, k: nat)
    requires Formed(p) && IsLoc(p, u) && EndsWithin(p, u, n) && IsTerminator(p, u) && k <= |BlockOf(p, u).succs|
    ensures |NextFromSuccs(p, u, n, k)| >= k
    decreases n, k
  {
    if k > 0 {
      NextOfSuccsExist(p, u, n, k - 1);
      var v := Loc(u.fun, BlockOf(p, u).succs[k - 1], 0);
      SuccStep(p, u, k - 1);
      assert FormedBlock(p, v.fun, p[v.fun].blocks[v.block]);
      if At(p, v).Intrinsic? { NextExists(p, v, n - 1); }
    }
  }

  /** Control that starts at `w` first meets the instruction `v`. */
  ghost predicate Leads(p: Program, w: Loc, v: Loc) {
    IsLoc(p, w) && if At(p, w).Intrinsic? then Follows(p, w, v) else v == w
  }

  /** A conditional branch has two instructions after it, one for each successor. */
  lemma BranchTargets(p: Program, u: Loc)
    requires WellFormed(p) && IsLoc(p, u) && At(p, u).CondBranch?
    ensures |NextInsts(p, u)| == |BlockOf(p, u).succs| == 2
    ensures forall k | 0 <= k < 2 :: Leads(p, Loc(u.fun, BlockOf(p, u).succs[k], 0), NextInsts(p, u)[k])
  {
    hide Leads, EndsWithin, AllLocs, NextFromSuccs, NoLoopAfter, Distinct;
    EndsSoon(p, u);
    CondBranchEnds(p, u);
    OneEach(p, u, |AllLocs(p)|);
  }

  lemma CondBranchEnds(p: Program, u: Loc)
    requires Formed(p) && IsLoc(p, u) && At(p, u).CondBranch?
    ensures IsTerminator(p, u) && |BlockOf(p, u).succs| == 2
  {
    assert FormedBlock(p, u.fun, p[u.fun].blocks[u.block]);
  }

  lemma OneEach(p: Program, u: Loc, n: nat)
    requires Formed(p) && IsLoc(p, u) && EndsWithin(p, u, n) && IsTerminator(p, u) && |BlockOf(p, u).succs| == 2
    requires |NextFromSuccs(p, u, n, 2)| <= 2
    ensures |NextFromSuccs(p, u, n, 2)| == 2
    ensures forall k | 0 <= k < 2 ::
              Leads(p, Loc(u.fun, BlockOf(p, u).succs[k], 0), NextFromSuccs(p, u, n, 2)[k])
  {
    hide Leads, EndsWithin, Formed;
    OneOfSucc(p, u, n, 0);
    OneOfSucc(p, u, n, 1);
  }

  /** What one more successor adds to the list is what control from there meets. */
  lemma OneOfSucc(p: Program, u: Loc, n: nat, k: nat)
    requires Formed(p) && IsLoc(p, u) && EndsWithin(p, u, n) && IsTerminator(p, u) && k < |BlockOf(p, u).succs|
    ensures var before, after := NextFromSuccs(p, u, n, k), NextFromSuccs(p, u, n, k + 1);
      && |before| < |after| && before == after[..|before|]
      && forall j | |before| <= j < |after| :: Leads(p, Loc(u.fun, BlockOf(p, u).succs[k], 0), after[j])
  {
    var v := Loc(u.fun, BlockOf(p, u).succs[k], 0);
    SuccStep(p, u, k);
    assert FormedBlock(p, v.fun, p[v.fun].blocks[v.block]);
    if At(p, v).Intrinsic? {
      NextExists(p, v, n - 1);
      forall x | x in NextFrom(p, v, n - 1) ensures Follows(p, v, x) { NextFromIff(p, v, n - 1, x); }
    }
  }
}
