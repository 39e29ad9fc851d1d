/** The search for innermost template brackets in demangled names. */
module CppUtil {

  predicate IsOpen(s: string, i: nat)
    requires i < |s|
  {
    s[i] == '<'
  }

  /** A closing bracket; the `>` of `->` and one at the very start do not count. */
  predicate IsClose(s: string, i: nat)
    requires i < |s|
  {
    s[i] == '>' && i > 0 && s[i - 1] != '-'
  }

  // ---------- which brackets match ----------

  /** Opening minus closing brackets in `s[a..b]`. */
  ghost function Balance(s: string, a: nat, b: nat): int
    requires a <= b <= |s|
  {
    if a == b then 0
    else Balance(s, a, b - 1) + (if IsOpen(s, b - 1) then 1 else if IsClose(s, b - 1) then -1 else 0)
  }

  ghost predicate Balanced(s: string, a: nat, b: nat)
    requires a <= b <= |s|
  {
    Balance(s, a, b) == 0 && forall k | a <= k <= b :: Balance(s, a, k) >= 0
  }

  ghost predicate Matched(s: string, o: int, c: int) {
    0 <= o < c < |s| && IsOpen(s, o) && IsClose(s, c) && Balanced(s, o + 1, c)
  }

  ghost predicate Innermost(s: string, o: int, c: int) {
    Matched(s, o, c) && !exists o', c' :: o < o' && c' < c && Matched(s, o', c')
  }

  lemma {:induction false} BalanceSplit(s: string, a: nat, b: nat, c: nat)
    requires a <= b <= c <= |s|
    ensures Balance(s, a, c) == Balance(s, a, b) + Balance(s, b, c)
    decreases c
  {
    if b < c { BalanceSplit(s, a, b, c - 1); }
  }

  /** Matched pairs nest: one that closes inside another also opens inside it. */
  lemma MatchedNest(s: string, o: int, c: int, o': int, c': int)
    requires Matched(s, o, c) && Matched(s, o', c') && o < c' < c
    ensures o < o'
  {
    assert Balance(s, o + 1, c' + 1) >= 0;
    if o' < o {
      BalanceSplit(s, o' + 1, o, c');
      BalanceSplit(s, o, o + 1, c');
    }
  }

  lemma MatchUnique(s: string, o: int, o': int, c: int)
    requires Matched(s, o, c) && Matched(s, o', c)
    ensures o == o'
  {
    var lo, hi := if o < o' then o else o', if o < o' then o' else o;
    if lo < hi {
      BalanceSplit(s, lo + 1, hi, c);
      BalanceSplit(s, hi, hi + 1, c);
    }
  }

  /** Inside a matched pair that is not innermost there is an innermost one. */
  lemma {:induction false} InnermostInside(s: string, o: int, c: int)
    requires Matched(s, o, c)
    ensures Innermost(s, o, c) || exists o', c' :: o < o' && c' < c && Innermost(s, o', c')
    decreases c - o
  {
    if o', c' :| o < o' && c' < c && Matched(s, o', c') {
      InnermostInside(s, o', c');
    }
  }

  /** `s[i]` is an opening bracket, or a closing one that is not part of an arrow. */
  predicate IsBracket(s: string, i: nat)
    requires i < |s|
  {
    s[i] == '<' || (s[i] == '>' && i > 0 && s[i - 1] != '-')
  }

  ghost predicate NoBracketIn(s: string, a: nat, b: nat)
    requires b <= |s|
  {
    forall k: nat | a <= k < b :: !IsBracket(s, k)
  }

  lemma {:induction false} NoBrackets(s: string, a: nat, b: nat)
    requires a <= b <= |s| && NoBracketIn(s, a, b)
    ensures forall j | a <= j <= b :: Balance(s, a, j) == 0
    decreases b
  {
    if a < b {
      NoBrackets(s, a, b - 1);
      assert !IsBracket(s, b - 1);
    }
  }

  lemma FirstClose(s: string, a: nat, b: nat) returns (c: nat)
    requires a <= b <= |s| && (forall k | a <= k < b :: s[k] != '<') && !NoBracketIn(s, a, b)
    ensures a <= c < b && IsClose(s, c) && NoBracketIn(s, a, c)
  {
    c := a;
    while !IsBracket(s, c)
      invariant a <= c < b && NoBracketIn(s, a, c) && !NoBracketIn(s, c, b)
      decreases b - c
    {
      c := c + 1;
    }
  }

  lemma LastOpen(s: string, a: nat, b: nat) returns (o: nat)
    requires a <= b <= |s| && exists k :: a <= k < b && s[k] == '<'
    ensures a <= o < b && s[o] == '<' && forall k | o < k < b :: s[k] != '<'
  {
    o := b - 1;
    while s[o] != '<'
      invariant a <= o < b && forall k | o < k < b :: s[k] != '<'
      invariant exists k :: a <= k <= o && s[k] == '<'
      decreases o
    {
      o := o - 1;
    }
  }

  lemma ClosedAfterLast(s: string, o: int, c: int, k: nat) returns (e: nat)
    requires Matched(s, o, c) && o < k < c && s[k] == '<' && forall j | k < j < c :: s[j] != '<'
    ensures k < e < c && Matched(s, k, e)
  {
    BalanceSplit(s, o + 1, k, k + 1);
    BalanceSplit(s, o + 1, k + 1, c);
    assert Balance(s, k + 1, c) < 0;
    if NoBracketIn(s, k + 1, c) { NoBrackets(s, k + 1, c); }
    e := FirstClose(s, k + 1, c);
    NoBrackets(s, k + 1, e);
  }

  lemma NoMatchIn(s: string, o: nat, c: nat)
    requires o < c < |s| && NoBracketIn(s, o + 1, c)
    ensures !exists o', c' :: o < o' && c' < c && Matched(s, o', c')
  {
    forall o', c' | o < o' && Matched(s, o', c') ensures c' >= c { BracketAt(s, o', c'); }
  }

  lemma BracketAt(s: string, o: int, c: int)
    requires Matched(s, o, c)
    ensures 0 <= o < c < |s| && IsBracket(s, o)
  {
  }

  /** A pair is innermost exactly if no bracket stands between the two; the `>` of an
      arrow and one at the very start are no brackets. */
  lemma InnermostIff(s: string, o: nat, c: nat)
    ensures Innermost(s, o, c) <==>
              o < c < |s| && s[o] == '<' && s[c] == '>' && s[c - 1] != '-' && NoBracketIn(s, o + 1, c)
  {
    if Innermost(s, o, c) {
      if exists k :: o + 1 <= k < c && s[k] == '<' {
        var k := LastOpen(s, o + 1, c);
        var e := ClosedAfterLast(s, o, c, k);
      } else if !NoBracketIn(s, o + 1, c) {
        var e := FirstClose(s, o + 1, c);
        NoBrackets(s, o + 1, e);
        BalanceSplit(s, o + 1, e, e + 1);
      }
    } else if o < c < |s| && s[o] == '<' && s[c] == '>' && s[c - 1] != '-' && NoBracketIn(s, o + 1, c) {
      NoBrackets(s, o + 1, c);
      assert Matched(s, o, c);
      NoMatchIn(s, o, c);
    }
  }

  // ---------- the stack ----------

  ghost predicate ClosedBefore(s: string, o: nat, i: nat) {
    exists c :: c < i && Matched(s, o, c)
  }

  /** The stacked brackets, with balanced text between and after them. */
  ghost predicate Stacked(s: string, stack: seq<nat>, i: nat)
    requires i <= |s|
  {
    && (forall k | 0 <= k < |stack| :: stack[k] < i && IsOpen(s, stack[k]))
    && (forall k | 0 <= k < |stack| - 1 :: stack[k] < stack[k + 1] && Balanced(s, stack[k] + 1, stack[k + 1]))
    && (stack != [] ==> Balanced(s, stack[|stack| - 1] + 1, i))
  }

  /** `stack` holds the brackets opened before `i` and not closed yet. */
  ghost predicate OpenBrackets(s: string, stack: seq<nat>, i: nat)
    requires i <= |s|
  {
    Stacked(s, stack, i) && forall o: nat | o < i && IsOpen(s, o) :: o in stack || ClosedBefore(s, o, i)
  }

  lemma BalancedAround(s: string, a: nat, o: nat, c: nat)
    requires a <= o && Matched(s, o, c) && Balanced(s, a, o)
    ensures Balanced(s, a, c + 1)
  {
    forall k | a <= k <= c ensures Balance(s, a, k) >= 0 {
      if k > o {
        BalanceSplit(s, a, o, k);
        BalanceSplit(s, o, o + 1, k);
        assert Balance(s, o + 1, k) >= 0;
      }
    }
    BalanceSplit(s, a, o, c);
    BalanceSplit(s, o, o + 1, c);
  }

  /** A closing bracket matches the top of the stack, and nothing if it is empty. */
  lemma CloseMatchesTop(s: string, stack: seq<nat>, i: nat, o: int)
    requires i < |s| && OpenBrackets(s, stack, i) && IsClose(s, i)
    ensures Matched(s, o, i) <==> stack != [] && o == stack[|stack| - 1]
  {
    if stack != [] {
      var top := stack[|stack| - 1];
      assert Matched(s, top, i);
      if Matched(s, o, i) { MatchUnique(s, o, top, i); }
    } else if Matched(s, o, i) {
      assert ClosedBefore(s, o, i);
      var c :| c < i && Matched(s, o, c);
      BalanceSplit(s, o + 1, c, c + 1);
    }
  }

  lemma PopStacked(s: string, stack: seq<nat>, i: nat)
    requires i < |s| && Stacked(s, stack, i) && stack != [] && Matched(s, stack[|stack| - 1], i)
    ensures Stacked(s, stack[..|stack| - 1], i + 1)
  {
    hide Balanced, Matched;
    var rest, top := stack[..|stack| - 1], stack[|stack| - 1];
    if rest != [] {
      var below := rest[|rest| - 1];
      assert below == stack[|stack| - 2] && stack[|stack| - 2 + 1] == top;
      BalancedAround(s, below + 1, top, i);
    }
  }

  lemma PopKeeps(s: string, stack: seq<nat>, i: nat)
    requires i < |s| && OpenBrackets(s, stack, i) && IsClose(s, i) && stack != []
    ensures OpenBrackets(s, stack[..|stack| - 1], i + 1)
  {
    hide Stacked, Matched;
    var rest, top := stack[..|stack| - 1], stack[|stack| - 1];
    CloseMatchesTop(s, stack, i, top);
    PopStacked(s, stack, i);
    assert stack == rest + [top];
    forall o: nat | o < i + 1 && IsOpen(s, o) && o !in rest ensures ClosedBefore(s, o, i + 1) {
      if o != top {
        assert ClosedBefore(s, o, i);
      }
    }
  }

  lemma PushKeeps(s: string, stack: seq<nat>, i: nat)
    requires i < |s| && OpenBrackets(s, stack, i) && IsOpen(s, i)
    ensures OpenBrackets(s, stack + [i], i + 1)
  {
    hide Matched;
    assert Balanced(s, i + 1, i + 1);
    forall o: nat | o < i + 1 && IsOpen(s, o) && o !in stack + [i] ensures ClosedBefore(s, o, i + 1) {
      assert i in stack + [i] && (o in stack ==> o in stack + [i]);
      assert ClosedBefore(s, o, i);
    }
  }

  lemma OtherKeeps(s: string, stack: seq<nat>, i: nat)
    requires i < |s| && OpenBrackets(s, stack, i) && !IsOpen(s, i) && (IsClose(s, i) ==> stack == [])
    ensures OpenBrackets(s, stack, i + 1)
  {
  }

  // ---------- the result ----------

  /** `pairs` lists exactly the innermost pairs that close before `i`, in order
      of their closing brackets. */
  ghost predicate Lists(s: string, pairs: seq<(nat, nat)>, i: nat) {
    && (forall o: nat, c: nat :: (o, c) in pairs <==> c < i && Innermost(s, o, c))
    && forall j, k | 0 <= j < k < |pairs| :: pairs[j].1 < pairs[k].1
  }

  ghost predicate Marks(s: string, used: seq<bool>, pairs: seq<(nat, nat)>) {
    && |used| == |s|
    && forall j | 0 <= j < |s| :: used[j] <==> exists p :: p in pairs && (p.0 == j || p.1 == j)
  }

  /** A matched pair is innermost exactly when nothing between is marked. */
  lemma UnmarkedIsInnermost(s: string, used: seq<bool>, pairs: seq<(nat, nat)>, o: nat, c: nat)
    requires Matched(s, o, c) && Lists(s, pairs, c) && Marks(s, used, pairs)
    ensures Innermost(s, o, c) <==> forall j | o < j < c :: !used[j]
  {
    InnermostInside(s, o, c);
    if j :| o < j < c && used[j] {
      var p :| p in pairs && (p.0 == j || p.1 == j);
      assert (p.0, p.1) in pairs;
      assert Innermost(s, p.0, p.1);
      MatchedNest(s, o, c, p.0, p.1);
    }
    if !Innermost(s, o, c) {
      var o', c' :| o < o' && c' < c && Innermost(s, o', c');
      assert (o', c') in pairs;
      assert used[o'];
    }
  }

  /** Appending an innermost pair that closes at `i`, or nothing if there is none. */
  lemma ListsMore(s: string, pairs: seq<(nat, nat)>, i: nat, more: seq<(nat, nat)>)
    requires i < |s| && Lists(s, pairs, i)
    requires (more == [] && forall o: nat :: !Innermost(s, o, i)) ||
             (|more| == 1 && more[0].1 == i && Innermost(s, more[0].0, i))
    ensures Lists(s, pairs + more, i + 1)
  {
    assert forall p :: p in pairs + more <==> p in pairs || p in more;
    forall o: nat, c: nat ensures (o, c) in pairs + more <==> c < i + 1 && Innermost(s, o, c) {
      if more != [] && c == i && Innermost(s, o, c) { MatchUnique(s, o, more[0].0, i); }
    }
    forall j, k | 0 <= j < k < |pairs + more| ensures (pairs + more)[j].1 < (pairs + more)[k].1 {
      assert (pairs[j].0, pairs[j].1) in pairs;
    }
  }

  lemma MarksMore(s: string, used: seq<bool>, pairs: seq<(nat, nat)>, o: nat, c: nat)
    requires Marks(s, used, pairs) && o < |s| && c < |s|
    ensures Marks(s, used[o := true][c := true], pairs + [(o, c)])
  {
  }

  /** The scan between the brackets of a pair for marked positions. */
  method NothingUsed(used: seq<bool>, from: nat, to: nat) returns (isInnermost: bool)
    requires from <= to <= |used|
    ensures isInnermost <==> forall k | from <= k < to :: !used[k]
  {
    isInnermost := true;
    var j := from;
    while j < to && isInnermost
      invariant from <= j <= to
      invariant isInnermost <==> forall k | from <= k < j :: !used[k]
    {
      if used[j] { isInnermost := false; }
      j := j + 1;
    }
  }

  method Texts(input: string, pairs: seq<(nat, nat)>) returns (ans: seq<string>)
    requires forall k | 0 <= k < |pairs| :: pairs[k].0 < pairs[k].1 < |input|
    ensures |ans| == |pairs|
    ensures forall k | 0 <= k < |pairs| :: ans[k] == input[pairs[k].0 + 1..pairs[k].1]
  {
    ans := [];
    for k := 0 to |pairs|
      invariant |ans| == k
      invariant forall m | 0 <= m < k :: ans[m] == input[pairs[m].0 + 1..pairs[m].1]
    {
      ans := ans + [input[pairs[k].0 + 1..pairs[k].1]];
    }
  }

  ghost predicate TextsOf(s: string, pairs: seq<(nat, nat)>, ans: seq<string>) {
    && |ans| == |pairs|
    && forall k | 0 <= k < |pairs| :: pairs[k].0 < pairs[k].1 < |s| && ans[k] == s[pairs[k].0 + 1..pairs[k].1]
  }

  /** `ans` are the texts of exactly the innermost pairs, in order of their closing
      brackets. */
  ghost predicate InnermostTexts(s: string, ans: seq<string>) {
    exists pairs :: Lists(s, pairs, |s|) && TextsOf(s, pairs, ans)
  }

  /** A pair of one list is in the other, not among the first pairs they share. */
  lemma ListedInBoth(s: string, a: seq<(nat, nat)>, b: seq<(nat, nat)>, n: nat) returns (k: nat)
    requires Lists(s, a, |s|) && Lists(s, b, |s|) && n < |a| && n <= |b| && forall j | 0 <= j < n :: a[j] == b[j]
    ensures n <= k < |b| && b[k] == a[n]
  {
    var x := a[n];
    assert (x.0, x.1) in a;
    assert (x.0, x.1) in b;
    k :| 0 <= k < |b| && b[k] == x;
  }

  lemma {:induction false} ListsAgree(s: string, a: seq<(nat, nat)>, b: seq<(nat, nat)>, n: nat)
    requires Lists(s, a, |s|) && Lists(s, b, |s|) && n <= |a|
    ensures n <= |b| && forall j | 0 <= j < n :: a[j] == b[j]
  {
    if n > 0 {
      ListsAgree(s, a, b, n - 1);
      var k := ListedInBoth(s, a, b, n - 1);
      var m := ListedInBoth(s, b, a, n - 1);
      assert a[n - 1].1 <= a[m].1 == b[n - 1].1 <= b[k].1;
      ListedInRange(s, a, |s|);
      MatchUnique(s, a[n - 1].0, b[n - 1].0, a[n - 1].1);
    }
  }

  /** Every string has one list of innermost texts only. */
  lemma InnermostTextsUnique(s: string, ans: seq<string>, ans': seq<string>)
    requires InnermostTexts(s, ans) && InnermostTexts(s, ans')
    ensures ans == ans'
  {
    hide Lists;
    var a: seq<(nat, nat)> :| Lists(s, a, |s|) && TextsOf(s, a, ans);
    var b: seq<(nat, nat)> :| Lists(s, b, |s|) && TextsOf(s, b, ans');
    ListsAgree(s, a, b, |a|);
    ListsAgree(s, b, a, |b|);
  }

  /** The texts of exactly the innermost bracket pairs, in order of their closing
      brackets, whatever else the string contains. */
  method FindInnermostBrackets(input: string) returns (ans: seq<string>)
    ensures InnermostTexts(input, ans)
  {
    hide Innermost, Matched, OpenBrackets, Lists, Marks;
    var stack: seq<nat> := [];
    var innerMostPairs: seq<(nat, nat)> := [];
    var used := seq(|input|, _ => false);
    NothingYet(input, used);
    for i := 0 to |input|
      invariant OpenBrackets(input, stack, i) && |used| == |input|
      invariant Lists(input, innerMostPairs, i) && Marks(input, used, innerMostPairs)
    {
      if IsOpen(input, i) {
        PushKeeps(input, stack, i);
        stack := stack + [i];
        ClosesNothing(input, stack[..|stack| - 1], i);
        ListsMore(input, innerMostPairs, i, []);
        assert innerMostPairs + [] == innerMostPairs;
      } else if IsClose(input, i) && stack != [] {
        var openIndex := stack[|stack| - 1];
        CloseMatchesTop(input, stack, i, openIndex);
        MatchedInRange(input, openIndex, i);
        ClosesOnlyTop(input, stack, i);
        PopKeeps(input, stack, i);
        stack := stack[..|stack| - 1];
        var isInnermost := NothingUsed(used, openIndex + 1, i);
        UnmarkedIsInnermost(input, used, innerMostPairs, openIndex, i);
        if isInnermost {
          MarksMore(input, used, innerMostPairs, openIndex, i);
          ListsMore(input, innerMostPairs, i, [(openIndex, i)]);
          innerMostPairs := innerMostPairs + [(openIndex, i)];
          used := used[openIndex := true][i := true];
        } else {
          ListsMore(input, innerMostPairs, i, []);
          assert innerMostPairs + [] == innerMostPairs;
        }
      } else {
        OtherKeeps(input, stack, i);
        ClosesNothing(input, stack, i);
        ListsMore(input, innerMostPairs, i, []);
        assert innerMostPairs + [] == innerMostPairs;
      }
    }
    ListedInRange(input, innerMostPairs, |input|);
    ans := Texts(input, innerMostPairs);
    assert TextsOf(input, innerMostPairs, ans);
  }

  lemma NothingYet(s: string, used: seq<bool>)
    requires |used| == |s| && forall j | 0 <= j < |s| :: !used[j]
    ensures OpenBrackets(s, [], 0) && Lists(s, [], 0) && Marks(s, used, [])
  {
  }

  lemma ClosesNothing(s: string, stack: seq<nat>, i: nat)
    requires i < |s| && OpenBrackets(s, stack, i) && (IsClose(s, i) ==> stack == [])
    ensures forall o: nat :: !Innermost(s, o, i)
  {
    forall o: nat ensures !Innermost(s, o, i) {
      if IsClose(s, i) { CloseMatchesTop(s, stack, i, o); }
    }
  }

  lemma ClosesOnlyTop(s: string, stack: seq<nat>, i: nat)
    requires i < |s| && OpenBrackets(s, stack, i) && IsClose(s, i) && stack != []
    ensures forall o: nat :: Innermost(s, o, i) ==> o == stack[|stack| - 1]
  {
    forall o: nat | Innermost(s, o, i) ensures o == stack[|stack| - 1] {
      CloseMatchesTop(s, stack, i, o);
    }
  }

  lemma MatchedInRange(s: string, o: int, c: int)
    requires Matched(s, o, c)
    ensures 0 <= o < c < |s|
  {
  }

  lemma ListedInRange(s: string, pairs: seq<(nat, nat)>, i: nat)
    requires Lists(s, pairs, i)
    ensures forall k | 0 <= k < |pairs| :: pairs[k].0 < pairs[k].1 < |s|
  {
  }
}
