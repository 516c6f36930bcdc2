/** The order the timeline lists commits in: each one before its parents, following a
  * branch down to where it forks before starting the next.
  */
module TopoOrder {
  import opened Wrappers
  import opened CommitGraph
  import opened TimelineTypes
  import CommitOrder

  /** Parent links between list positions: `g[i]` are the parents of `i`, first parent first. */
  type Links = seq<seq<nat>>

  ghost predicate InRange(g: Links) {
    forall i, p :: 0 <= i < |g| && p in g[i] ==> p < |g|
  }

  // ----- what an order of the positions must satisfy ----------------------------------

  /** Every child of `p` is in `placed`. */
  ghost predicate Ready(g: Links, placed: set<nat>, p: nat) {
    forall i | 0 <= i < |g| && p in g[i] :: i in placed
  }

  ghost predicate IsHead(g: Links, i: nat) {
    Ready(g, {}, i)
  }

  ghost function Elements(s: seq<nat>): set<nat> {
    set x | x in s
  }

  ghost predicate NoRepeats(s: seq<nat>) {
    forall a, b :: 0 <= a < b < |s| ==> s[a] != s[b]
  }

  ghost predicate ChildrenFirst(g: Links, order: seq<nat>) {
    forall k :: 0 <= k < |order| ==> Ready(g, Elements(order[..k]), order[k])
  }

  ghost predicate HeadsInOrder(g: Links, order: seq<nat>) {
    forall a, b :: 0 <= a < b < |order| && IsHead(g, order[a]) && IsHead(g, order[b]) ==> order[a] < order[b]
  }

  /** The `m`-th parent is the first of `ps` with all its children in `placed`. */
  ghost predicate FirstReady(g: Links, placed: set<nat>, ps: seq<nat>, m: nat) {
    m < |ps| && Ready(g, placed, ps[m]) && forall l :: 0 <= l < m ==> !Ready(g, placed, ps[l])
  }

  /** A commit is followed at once by its first parent that has become placeable, if any. */
  ghost predicate FollowsBranches(g: Links, order: seq<nat>) {
    forall k, m: nat :: 0 <= k < |order| && order[k] < |g|
      && FirstReady(g, Elements(order[..k + 1]), g[order[k]], m)
      ==> k + 1 < |order| && order[k + 1] == g[order[k]][m]
  }

  /** Going up or down only within `g`: each element is a parent of the one before it. */
  ghost predicate IsPath(g: Links, s: seq<nat>) {
    && |s| >= 1
    && (forall k :: 0 <= k < |s| ==> s[k] < |g|)
    && (forall k :: 0 < k < |s| ==> s[k] in g[s[k - 1]])
  }

  ghost predicate IsCycle(g: Links, s: seq<nat>) {
    IsPath(g, s) && |s| >= 2 && s[0] == s[|s| - 1]
  }

  ghost predicate OnCycle(g: Links, c: nat) {
    exists s :: IsCycle(g, s) && s[0] == c
  }

  /** `x` lies on a cycle of parent links or is reached through parents from one. */
  ghost predicate BelowCycle(g: Links, x: nat) {
    exists s :: IsPath(g, s) && s[|s| - 1] == x && OnCycle(g, s[0])
  }

  ghost predicate IsTopoOrder(g: Links, order: seq<nat>) {
    && NoRepeats(order)
    && (forall x: nat :: x in order <==> x < |g| && !BelowCycle(g, x))
    && ChildrenFirst(g, order)
    && HeadsInOrder(g, order)
    && FollowsBranches(g, order)
  }

  // ----- counting unplaced children ----------------------------------------------------

  /** How many links lead to `p` from positions below `n` that are not placed. */
  ghost function Unplaced(g: Links, placed: set<nat>, n: nat, p: nat): nat
    requires n <= |g|
  {
    if n == 0 then 0
    else Unplaced(g, placed, n - 1, p) + (if n - 1 in placed then 0 else multiset(g[n - 1])[p])
  }

  lemma {:induction false} PlacingRemovesLinks(g: Links, placed: set<nat>, n: nat, i: nat, p: nat)
    requires n <= |g| && i !in placed
    ensures Unplaced(g, placed, n, p)
         == Unplaced(g, placed + {i}, n, p) + (if i < n then multiset(g[i])[p] else 0)
  {
    if n > 0 {
      PlacingRemovesLinks(g, placed, n - 1, i, p);
    }
  }

  lemma {:induction false} NoneUnplaced(g: Links, placed: set<nat>, n: nat, p: nat)
    requires n <= |g|
    ensures Unplaced(g, placed, n, p) == 0 <==> forall i | 0 <= i < n && p in g[i] :: i in placed
  {
    if n > 0 {
      NoneUnplaced(g, placed, n - 1, p);
    }
  }

  lemma NoneUnplacedForall(g: Links, placed: set<nat>)
    ensures forall p: nat :: Unplaced(g, placed, |g|, p) == 0 <==> Ready(g, placed, p)
  {
    forall p: nat {
      NoneUnplaced(g, placed, |g|, p);
    }
  }

  // ----- what is never placed ----------------------------------------------------------

  /** A placed position's ancestors along a path of links are all placed, ever earlier. */
  lemma {:induction false} PathRunsForward(g: Links, order: seq<nat>, s: seq<nat>, b: nat) returns (a: nat)
    requires ChildrenFirst(g, order) && IsPath(g, s)
    requires b < |order| && order[b] == s[|s| - 1]
    ensures a < |order| && order[a] == s[0] && a + |s| - 1 <= b
    decreases |s|
  {
    if |s| == 1 {
      a := b;
    } else {
      var t := s[..|s| - 1];
      assert s[|s| - 1] in g[s[|s| - 2]];
      assert s[|s| - 2] in order[..b];
      var b' :| 0 <= b' < b && order[b'] == s[|s| - 2];
      a := PathRunsForward(g, order, t, b');
    }
  }

  lemma PlacedNotBelowCycle(g: Links, order: seq<nat>, x: nat)
    requires NoRepeats(order) && ChildrenFirst(g, order) && x in order
    ensures !BelowCycle(g, x)
  {
    if BelowCycle(g, x) {
      var s :| IsPath(g, s) && s[|s| - 1] == x && OnCycle(g, s[0]);
      var c :| IsCycle(g, c) && c[0] == s[0];
      var b :| 0 <= b < |order| && order[b] == x;
      var a := PathRunsForward(g, order, s, b);
      var a' := PathRunsForward(g, order, c, a);
      assert false;
    }
  }

  /** No position is left to place. */
  ghost predicate Stuck(g: Links, placed: set<nat>) {
    forall p: nat :: p < |g| && p !in placed ==> !Ready(g, placed, p)
  }

  ghost predicate AllOutside(s: seq<nat>, placed: set<nat>) {
    forall k :: 0 <= k < |s| ==> s[k] !in placed
  }

  lemma LongerPath(g: Links, placed: set<nat>, t: seq<nat>, x: nat)
    requires IsPath(g, t) && AllOutside(t, placed) && x < |g| && x in g[t[|t| - 1]] && x !in placed
    ensures IsPath(g, t + [x]) && AllOutside(t + [x], placed)
  {
  }

  lemma ChildOutside(g: Links, placed: set<nat>, x: nat) returns (i: nat)
    requires Stuck(g, placed) && x < |g| && x !in placed
    ensures i < |g| && x in g[i] && i !in placed
  {
    i :| i < |g| && x in g[i] && i !in placed;
  }

  /** Above a position outside `placed` runs a path of any length outside `placed`. */
  lemma {:induction false} Climb(g: Links, placed: set<nat>, x: nat, m: nat) returns (s: seq<nat>)
    requires Stuck(g, placed)
    requires x < |g| && x !in placed
    ensures IsPath(g, s) && |s| == m + 1 && s[m] == x
    ensures AllOutside(s, placed)
    decreases m
  {
    if m == 0 {
      s := [x];
    } else {
      var i := ChildOutside(g, placed, x);
      var t := Climb(g, placed, i, m - 1);
      LongerPath(g, placed, t, x);
      s := t + [x];
    }
  }

  lemma {:induction false} DistinctBounded(s: seq<nat>, n: nat)
    requires NoRepeats(s) && forall x: nat :: x in s ==> x < n
    ensures |s| <= n
  {
    DistinctCard(s);
    SubsetCard(Elements(s), NumbersBelow(n));
  }

  ghost function NumbersBelow(n: nat): (s: set<nat>)
    ensures |s| == n
    ensures forall x: nat :: x in s <==> x < n
  {
    if n == 0 then {} else NumbersBelow(n - 1) + {n - 1}
  }

  lemma {:induction false} DistinctCard(s: seq<nat>)
    requires NoRepeats(s)
    ensures |Elements(s)| == |s|
  {
    if s != [] {
      var t := s[..|s| - 1];
      DistinctCard(t);
      assert Elements(s) == Elements(t) + {s[|s| - 1]};
    }
  }

  lemma {:induction false} SubsetCard(a: set<nat>, b: set<nat>)
    requires a <= b
    ensures |a| <= |b|
  {
    if a != {} {
      var x :| x in a;
      SubsetCard(a - {x}, b - {x});
    }
  }

  lemma SubPath(g: Links, s: seq<nat>, a: nat, b: nat)
    requires IsPath(g, s) && a < b <= |s|
    ensures IsPath(g, s[a..b])
  {
    var t := s[a..b];
    forall k | 0 < k < |t|
      ensures t[k] in g[t[k - 1]]
    {
      assert s[a + k] in g[s[a + k - 1]];
    }
  }

  lemma RevisitIsCycle(g: Links, s: seq<nat>, a: nat, b: nat)
    requires IsPath(g, s) && a < b < |s| && s[a] == s[b]
    ensures BelowCycle(g, s[|s| - 1])
  {
    SubPath(g, s, a, b + 1);
    SubPath(g, s, a, |s|);
    assert IsCycle(g, s[a..b + 1]);
    assert OnCycle(g, s[a..][0]);
  }

  lemma LongRepeats(s: seq<nat>, n: nat) returns (a: nat, b: nat)
    requires |s| > n && forall x: nat :: x in s ==> x < n
    ensures a < b < |s| && s[a] == s[b]
  {
    if NoRepeats(s) {
      DistinctBounded(s, n);
    }
    a, b :| a < b < |s| && s[a] == s[b];
  }

  lemma LongPathIsBelowCycle(g: Links, s: seq<nat>)
    requires IsPath(g, s) && |s| > |g|
    ensures BelowCycle(g, s[|s| - 1])
  {
    PathWithin(g, s);
    var a, b := LongRepeats(s, |g|);
    RevisitIsCycle(g, s, a, b);
  }

  /** What no order can place sits below a cycle: climbing must revisit a position. */
  lemma UnplacedIsBelowCycle(g: Links, placed: set<nat>, x: nat)
    requires Stuck(g, placed)
    requires x < |g| && x !in placed
    ensures BelowCycle(g, x)
  {
    var s := Climb(g, placed, x, |g|);
    LongPathIsBelowCycle(g, s);
  }

  lemma PathWithin(g: Links, s: seq<nat>)
    requires IsPath(g, s)
    ensures forall x: nat :: x in s ==> x < |g|
  {
  }

  // ----- the algorithm -------------------------------------------------------------------

  /** The positions with no link left to count are those placed or stacked, each once. */
  ghost predicate Balanced(g: Links, counts: seq<int>, order: seq<nat>, stack: seq<nat>) {
    && |counts| == |g|
    && NoRepeats(order) && NoRepeats(stack)
    && (forall x: nat :: x in order ==> x !in stack)
    && (forall x: nat :: x in order || x in stack <==> x < |g| && counts[x] == 0)
  }

  /** The counters hold the links from unplaced children. */
  ghost predicate Counted(g: Links, counts: seq<int>, placed: set<nat>) {
    && |counts| == |g|
    && forall p :: 0 <= p < |g| ==> counts[p] == Unplaced(g, placed, |g|, p)
  }

  /** [`Counted`], but for the links in `pending`, still to be taken off. */
  ghost predicate CountedBut(g: Links, counts: seq<int>, placed: set<nat>, pending: seq<nat>) {
    && |counts| == |g|
    && forall p :: 0 <= p < |g| ==> counts[p] == Unplaced(g, placed, |g|, p) + multiset(pending)[p]
  }

  ghost predicate HeadsWaitInOrder(g: Links, order: seq<nat>, stack: seq<nat>) {
    && HeadsInOrder(g, order)
    && (forall a, b :: 0 <= a < b < |stack| && IsHead(g, stack[a]) && IsHead(g, stack[b]) ==> stack[b] < stack[a])
    && (forall x, y :: x in order && y in stack && IsHead(g, x) && IsHead(g, y) ==> x < y)
  }

  method CountChildren(g: Links) returns (counts: array<int>)
    requires InRange(g)
    ensures fresh(counts) && counts.Length == |g|
    ensures forall p :: 0 <= p < |g| ==> counts[p] == Unplaced(g, {}, |g|, p)
  {
    counts := new int[|g|](_ => 0);
    for i := 0 to |g|
      invariant forall p :: 0 <= p < |g| ==> counts[p] == Unplaced(g, {}, i, p)
    {
      for k := 0 to |g[i]|
        invariant forall p :: 0 <= p < |g| ==> counts[p] == Unplaced(g, {}, i, p) + multiset(g[i][..k])[p]
      {
        var p := g[i][k];
        assert p in g[i];
        assert g[i][..k + 1] == g[i][..k] + [p];
        counts[p] := counts[p] + 1;
      }
      assert g[i][..|g[i]|] == g[i];
    }
  }

  /** The stack's top is the first parent of `i` to have become ready, if one has. */
  ghost predicate BranchOnTop(g: Links, placed: set<nat>, i: nat, stack: seq<nat>)
    requires i < |g|
  {
    forall m: nat :: FirstReady(g, placed, g[i], m) ==> |stack| > 0 && stack[|stack| - 1] == g[i][m]
  }

  ghost predicate TopContinuesBranch(g: Links, order: seq<nat>, stack: seq<nat>) {
    |order| > 0 && order[|order| - 1] < |g| ==> BranchOnTop(g, Elements(order), order[|order| - 1], stack)
  }

  ghost predicate FollowedSoFar(g: Links, order: seq<nat>) {
    forall k, m: nat :: 0 <= k < |order| - 1 && order[k] < |g|
      && FirstReady(g, Elements(order[..k + 1]), g[order[k]], m)
      ==> order[k + 1] == g[order[k]][m]
  }

  /** From the `k`-th on, the `m`-th of `ps` is the first whose count is zero. */
  ghost predicate FirstZero(counts: seq<int>, ps: seq<nat>, k: nat, m: nat) {
    && k <= m < |ps|
    && (forall l :: 0 <= l < |ps| ==> ps[l] < |counts|)
    && counts[ps[m]] == 0
    && forall l :: k <= l < m ==> counts[ps[l]] != 0
  }

  /** Every stacked zero-count parent from the `k`-th on gives way to the first of them. */
  ghost predicate FirstZeroOnTop(counts: seq<int>, ps: seq<nat>, k: nat, stack: seq<nat>) {
    forall m: nat :: FirstZero(counts, ps, k, m) ==> |stack| > 0 && stack[|stack| - 1] == ps[m]
  }

  /** The state of a visit to `i` with its first `k` parents still to come. */
  ghost predicate Visiting(g: Links, i: nat, counts: seq<int>, order: seq<nat>, stack: seq<nat>, k: nat)
    requires i < |g| && k <= |g[i]|
  {
    && Balanced(g, counts, order, stack)
    && CountedBut(g, counts, Elements(order), g[i][..k])
    && FirstZeroOnTop(counts, g[i], k, stack)
  }

  lemma FirstZeroStep(counts: seq<int>, ps: seq<nat>, k: nat, stack: seq<nat>)
    requires k < |ps| && ps[k] < |counts| && counts[ps[k]] > 0
    requires FirstZeroOnTop(counts, ps, k + 1, stack)
    ensures var counts' := counts[ps[k] := counts[ps[k]] - 1];
      FirstZeroOnTop(counts', ps, k, if counts'[ps[k]] == 0 then stack + [ps[k]] else stack)
  {
    var counts' := counts[ps[k] := counts[ps[k]] - 1];
    forall m: nat | FirstZero(counts', ps, k, m) && counts'[ps[k]] != 0
      ensures FirstZero(counts, ps, k + 1, m)
    {
    }
  }

  datatype Tally = Tally(counts: seq<int>, stack: seq<nat>)

  /** One link to `p` taken off, and `p` stacked if that was the last. */
  function TakeOne(t: Tally, p: nat): (u: Tally)
    ensures |u.counts| == |t.counts|
  {
    if p >= |t.counts| then t
    else
      var counts := t.counts[p := t.counts[p] - 1];
      Tally(counts, if counts[p] == 0 then t.stack + [p] else t.stack)
  }

  lemma VisitOne(g: Links, i: nat, t: Tally, order: seq<nat>, k: nat)
    requires InRange(g) && i < |g| && k < |g[i]|
    requires Visiting(g, i, t.counts, order, t.stack, k + 1)
    ensures var u := TakeOne(t, g[i][k]); Visiting(g, i, u.counts, order, u.stack, k)
  {
    var ps := g[i];
    var p := ps[k];
    assert p in g[i];
    assert ps[..k + 1] == ps[..k] + [p];
    assert t.counts[p] > 0;
    FirstZeroStep(t.counts, ps, k, t.stack);
  }

  lemma Visited(g: Links, i: nat, counts: seq<int>, order: seq<nat>, stack: seq<nat>)
    requires InRange(g) && i < |g| && Visiting(g, i, counts, order, stack, 0)
    ensures Counted(g, counts, Elements(order)) && BranchOnTop(g, Elements(order), i, stack)
  {
    var ps := g[i];
    assert forall l :: 0 <= l < |ps| ==> ps[l] in g[i];
    NoneUnplacedForall(g, Elements(order));
    forall m: nat | FirstReady(g, Elements(order), ps, m)
      ensures FirstZero(counts, ps, 0, m)
    {
    }
  }

  /** Only some of `ps` were pushed. */
  ghost predicate PushedFrom(ps: seq<nat>, stack: seq<nat>, stack': seq<nat>) {
    stack <= stack' && forall a :: |stack| <= a < |stack'| ==> stack'[a] in ps
  }

  ghost predicate VisitingFrom(g: Links, i: nat, counts: seq<int>, order: seq<nat>, stack: seq<nat>, stack': seq<nat>,
      k: nat)
    requires i < |g| && k <= |g[i]|
  {
    Visiting(g, i, counts, order, stack', k) && PushedFrom(g[i], stack, stack')
  }

  lemma VisitStarts(g: Links, i: nat, counts: seq<int>, order: seq<nat>, stack: seq<nat>)
    requires InRange(g) && i < |g| && Balanced(g, counts, order, stack)
    requires CountedBut(g, counts, Elements(order), g[i])
    ensures VisitingFrom(g, i, counts, order, stack, stack, |g[i]|)
  {
    assert g[i][..|g[i]|] == g[i];
  }

  lemma VisitEnds(g: Links, i: nat, counts: seq<int>, order: seq<nat>, stack: seq<nat>, stack': seq<nat>)
    requires InRange(g) && i < |g| && VisitingFrom(g, i, counts, order, stack, stack', 0)
    ensures VisitedFrom(g, i, counts, order, stack, stack')
  {
    Visited(g, i, counts, order, stack');
  }

  /** The links of `i` are off the counts, and its first parent that became placeable is on top. */
  ghost predicate VisitedFrom(g: Links, i: nat, counts: seq<int>, order: seq<nat>, stack: seq<nat>, stack': seq<nat>)
    requires i < |g|
  {
    && Balanced(g, counts, order, stack') && Counted(g, counts, Elements(order))
    && PushedFrom(g[i], stack, stack') && BranchOnTop(g, Elements(order), i, stack')
  }

  /** Once the links to `ps[k..]` are taken off, last first. */
  ghost function Taken(ps: seq<nat>, k: nat, t: Tally): (u: Tally)
    requires k <= |ps|
    ensures |u.counts| == |t.counts|
    decreases |ps| - k
  {
    if k == |ps| then t else TakeOne(Taken(ps, k + 1, t), ps[k])
  }

  ghost predicate TallyVisits(g: Links, i: nat, order: seq<nat>, stack: seq<nat>, t: Tally, k: nat)
    requires i < |g| && k <= |g[i]|
  {
    VisitingFrom(g, i, t.counts, order, stack, t.stack, k)
  }

  lemma TakenFrom(ps: seq<nat>, stack: seq<nat>, t: Tally, p: nat)
    requires PushedFrom(ps, stack, t.stack) && p in ps
    ensures PushedFrom(ps, stack, TakeOne(t, p).stack)
  {
  }

  lemma TakeOneVisits(g: Links, i: nat, order: seq<nat>, stack: seq<nat>, t: Tally, k: nat)
    requires InRange(g) && i < |g| && k < |g[i]| && TallyVisits(g, i, order, stack, t, k + 1)
    ensures TallyVisits(g, i, order, stack, TakeOne(t, g[i][k]), k)
  {
    VisitOne(g, i, t, order, k);
    TakenFrom(g[i], stack, t, g[i][k]);
  }

  lemma {:induction false} TakenVisits(g: Links, i: nat, order: seq<nat>, stack: seq<nat>, t: Tally, k: nat)
    requires InRange(g) && i < |g| && k <= |g[i]| && TallyVisits(g, i, order, stack, t, |g[i]|)
    ensures TallyVisits(g, i, order, stack, Taken(g[i], k, t), k)
    decreases |g[i]| - k
  {
    if k < |g[i]| {
      TakenVisits(g, i, order, stack, t, k + 1);
      TakeOneVisits(g, i, order, stack, Taken(g[i], k + 1, t), k);
    }
  }

  lemma AllVisited(g: Links, i: nat, counts: seq<int>, order: seq<nat>, stack: seq<nat>)
    requires InRange(g) && i < |g| && Balanced(g, counts, order, stack)
    requires CountedBut(g, counts, Elements(order), g[i])
    ensures var t := Taken(g[i], 0, Tally(counts, stack)); VisitedFrom(g, i, t.counts, order, stack, t.stack)
  {
    var start := Tally(counts, stack);
    VisitStarts(g, i, counts, order, stack);
    TakenVisits(g, i, order, stack, start, 0);
    VisitEnds(g, i, Taken(g[i], 0, start).counts, order, stack, Taken(g[i], 0, start).stack);
  }

  /** Take the links of a commit off its parents' counts, last parent first, stacking each parent
    * whose count reaches zero.
    */
  method TakeLinks(ps: seq<nat>, counts: array<int>, stack: seq<nat>) returns (stack': seq<nat>)
    requires forall k :: 0 <= k < |ps| ==> ps[k] < counts.Length
    modifies counts
    ensures Tally(counts[..], stack') == Taken(ps, 0, Tally(old(counts[..]), stack))
  {
    stack' := stack;
    var k := |ps|;
    while k > 0
      invariant 0 <= k <= |ps|
      invariant Tally(counts[..], stack') == Taken(ps, k, Tally(old(counts[..]), stack))
    {
      k := k - 1;
      var p := ps[k];
      counts[p] := counts[p] - 1;
      if counts[p] == 0 {
        stack' := stack' + [p];
      }
    }
  }

  /** Visit the parents of the just placed `i`. */
  method VisitParents(g: Links, i: nat, counts: array<int>, stack: seq<nat>, ghost order: seq<nat>)
      returns (stack': seq<nat>)
    requires InRange(g) && i < |g|
    requires Balanced(g, counts[..], order, stack)
    requires CountedBut(g, counts[..], Elements(order), g[i])
    modifies counts
    ensures VisitedFrom(g, i, counts[..], order, stack, stack')
  {
    AllVisited(g, i, counts[..], order, stack);
    ParentsCounted(g, i, counts[..], order, stack);
    stack' := TakeLinks(g[i], counts, stack);
  }

  lemma ParentsCounted(g: Links, i: nat, counts: seq<int>, order: seq<nat>, stack: seq<nat>)
    requires InRange(g) && i < |g| && Balanced(g, counts, order, stack)
    ensures forall k :: 0 <= k < |g[i]| ==> g[i][k] < |counts|
  {
    assert forall k :: 0 <= k < |g[i]| ==> g[i][k] in g[i];
  }

  method Kahn(g: Links) returns (order: seq<nat>)
    requires InRange(g)
    ensures IsTopoOrder(g, order)
  {
    var counts := CountChildren(g);
    NoneUnplacedForall(g, {});
    var stack: seq<nat> := [];
    var i := |g|;
    while i > 0
      invariant 0 <= i <= |g|
      invariant forall x: nat :: x in stack <==> i <= x < |g| && counts[x] == 0
      invariant forall a :: 0 <= a < |stack| ==> stack[a] in stack
      invariant forall a, b :: 0 <= a < b < |stack| ==> stack[b] < stack[a]
    {
      i := i - 1;
      if counts[i] == 0 {
        stack := stack + [i];
      }
    }
    order := [];
    assert Elements(order) == {};
    while |stack| > 0
      invariant Counted(g, counts[..], Elements(order))
      invariant Balanced(g, counts[..], order, stack)
      invariant ChildrenFirst(g, order) && HeadsWaitInOrder(g, order, stack)
      invariant FollowedSoFar(g, order) && TopContinuesBranch(g, order, stack)
      decreases |g| - |order|
    {
      var top := stack[|stack| - 1];
      PlacingKeepsCounts(g, counts[..], order, stack);
      PlacingKeepsOrder(g, counts[..], order, stack);
      ghost var waiting := stack[..|stack| - 1];
      stack := stack[..|stack| - 1];
      order := order + [top];
      stack := VisitParents(g, top, counts, stack, order);
      PushingKeepsHeads(g, top, order, waiting, stack);
    }
    Finished(g, counts[..], order);
  }

  /** Moving the stack's top to the order leaves its links still to be taken off. */
  lemma PlacingKeepsCounts(g: Links, counts: seq<int>, order: seq<nat>, stack: seq<nat>)
    requires InRange(g) && |stack| > 0 && Balanced(g, counts, order, stack)
    requires Counted(g, counts, Elements(order))
    ensures var top := stack[|stack| - 1];
      && top < |g| && |order| < |g|
      && Balanced(g, counts, order + [top], stack[..|stack| - 1])
      && CountedBut(g, counts, Elements(order + [top]), g[top])
  {
    var top := stack[|stack| - 1];
    var order', stack' := order + [top], stack[..|stack| - 1];
    assert top in stack;
    assert forall x: nat :: x in stack <==> x in stack' || x == top;
    DistinctBounded(order', |g|);
    assert Elements(order') == Elements(order) + {top};
    forall p | 0 <= p < |g|
      ensures counts[p] == Unplaced(g, Elements(order'), |g|, p) + multiset(g[top])[p]
    {
      PlacingRemovesLinks(g, Elements(order), |g|, top, p);
    }
  }

  lemma PlacingKeepsOrder(g: Links, counts: seq<int>, order: seq<nat>, stack: seq<nat>)
    requires InRange(g) && |stack| > 0 && Balanced(g, counts, order, stack)
    requires Counted(g, counts, Elements(order))
    requires ChildrenFirst(g, order) && HeadsWaitInOrder(g, order, stack)
    requires FollowedSoFar(g, order) && TopContinuesBranch(g, order, stack)
    ensures var top := stack[|stack| - 1];
      var order' := order + [top];
      && ChildrenFirst(g, order') && FollowedSoFar(g, order')
      && HeadsWaitInOrder(g, order', stack[..|stack| - 1])
  {
    var top := stack[|stack| - 1];
    assert top in stack;
    NoneUnplacedForall(g, Elements(order));
    ReadyIsPlaced(g, order, top);
    BranchIsFollowed(g, order, stack);
    HeadIsPlaced(g, order, stack);
  }

  lemma ReadyIsPlaced(g: Links, order: seq<nat>, top: nat)
    requires ChildrenFirst(g, order) && Ready(g, Elements(order), top)
    ensures ChildrenFirst(g, order + [top])
  {
    var order' := order + [top];
    forall k | 0 <= k < |order'|
      ensures Ready(g, Elements(order'[..k]), order'[k])
    {
      assert order'[..k] == order[..k];
      assert k == |order| ==> order[..k] == order;
    }
  }

  lemma BranchIsFollowed(g: Links, order: seq<nat>, stack: seq<nat>)
    requires |stack| > 0 && FollowedSoFar(g, order) && TopContinuesBranch(g, order, stack)
    ensures FollowedSoFar(g, order + [stack[|stack| - 1]])
  {
    var order' := order + [stack[|stack| - 1]];
    forall k, m: nat | 0 <= k < |order'| - 1 && order'[k] < |g|
        && FirstReady(g, Elements(order'[..k + 1]), g[order'[k]], m)
      ensures order'[k + 1] == g[order'[k]][m]
    {
      assert order'[..k + 1] == order[..k + 1];
      assert k == |order| - 1 ==> order[..k + 1] == order;
    }
  }

  lemma HeadIsPlaced(g: Links, order: seq<nat>, stack: seq<nat>)
    requires |stack| > 0 && HeadsWaitInOrder(g, order, stack)
    ensures HeadsWaitInOrder(g, order + [stack[|stack| - 1]], stack[..|stack| - 1])
  {
    var n := |stack| - 1;
    assert stack[n] in stack;
    forall x, y | x in order + [stack[n]] && y in stack[..n] && IsHead(g, x) && IsHead(g, y)
      ensures x < y
    {
      var b :| 0 <= b < n && stack[..n][b] == y;
      assert stack[b] in stack;
    }
    forall a | 0 <= a < |order|
      ensures order[a] in order
    {
    }
  }

  /** What is pushed is the parent of something, so no head. */
  lemma PushingKeepsHeads(g: Links, top: nat, order: seq<nat>, stack: seq<nat>, stack': seq<nat>)
    requires top < |g| && HeadsWaitInOrder(g, order, stack)
    requires PushedFrom(g[top], stack, stack')
    ensures HeadsWaitInOrder(g, order, stack')
  {
    assert forall a :: |stack| <= a < |stack'| ==> !IsHead(g, stack'[a]);
  }

  lemma Finished(g: Links, counts: seq<int>, order: seq<nat>)
    requires InRange(g) && Balanced(g, counts, order, []) && Counted(g, counts, Elements(order))
    requires ChildrenFirst(g, order) && HeadsWaitInOrder(g, order, [])
    requires FollowedSoFar(g, order) && TopContinuesBranch(g, order, [])
    ensures IsTopoOrder(g, order)
  {
    NoneUnplacedForall(g, Elements(order));
    forall x: nat
      ensures x in order <==> x < |g| && !BelowCycle(g, x)
    {
      if x in order {
        PlacedNotBelowCycle(g, order, x);
      } else if x < |g| {
        UnplacedIsBelowCycle(g, Elements(order), x);
      }
    }
    assert order[..|order|] == order;
  }

  // ----- commits ---------------------------------------------------------------------------

  /** `index` sends each listed hash to the last position that has it. */
  ghost predicate IsIndex(commits: seq<CommitInfo>, index: map<Oid, nat>) {
    && (forall i :: 0 <= i < |commits| ==> commits[i].hash in index && i <= index[commits[i].hash])
    && (forall h :: h in index ==> index[h] < |commits| && commits[index[h]].hash == h)
  }

  /** The positions of those of `ps` that are listed. */
  function Positions(index: map<Oid, nat>, ps: seq<GraphParent>): (s: seq<nat>)
    ensures forall p :: p in s <==> exists k :: 0 <= k < |ps| && ps[k].hash in index && index[ps[k].hash] == p
  {
    if ps == [] then []
    else
      var rest := Positions(index, ps[1..]);
      assert forall k :: 0 <= k < |ps| ==> ps[k] == if k == 0 then ps[0] else ps[1..][k - 1];
      assert forall k :: 0 <= k < |ps| - 1 ==> ps[1..][k] == ps[k + 1];
      if ps[0].hash in index then [index[ps[0].hash]] + rest else rest
  }

  function ParentLinks(index: map<Oid, nat>, commits: seq<CommitInfo>): Links {
    seq(|commits|, i requires 0 <= i < |commits| => Positions(index, commits[i].Parents()))
  }

  method Index(commits: seq<CommitInfo>) returns (index: map<Oid, nat>)
    ensures IsIndex(commits, index)
  {
    index := map[];
    for i := 0 to |commits|
      invariant IsIndex(commits[..i], index)
    {
      index := index[commits[i].hash := i];
    }
    assert commits[..|commits|] == commits;
  }

  /** The commits at `positions`, each taken out of its slot. */
  method TakeAll(commits: seq<CommitInfo>, positions: seq<nat>) returns (taken: seq<CommitInfo>)
    requires NoRepeats(positions) && forall k :: 0 <= k < |positions| ==> positions[k] < |commits|
    ensures |taken| == |positions|
    ensures forall k :: 0 <= k < |positions| ==> taken[k] == commits[positions[k]]
  {
    var slots := seq(|commits|, i requires 0 <= i < |commits| => Some(commits[i]));
    taken := [];
    for k := 0 to |positions|
      invariant |slots| == |commits| && |taken| == k
      invariant forall l :: k <= l < |positions| ==> slots[positions[l]] == Some(commits[positions[l]])
      invariant forall l :: 0 <= l < k ==> taken[l] == commits[positions[l]]
    {
      var i := positions[k];
      match slots[i] {
        case Some(commit) => taken := taken + [commit];
        case None =>
      }
      slots := slots[i := None];
    }
  }

  /** `sorted` takes the commits in such an order of their parent links; `order` are the positions
    * they had.
    */
  ghost predicate Sorts(commits: seq<CommitInfo>, sorted: seq<CommitInfo>, index: map<Oid, nat>, order: seq<nat>) {
    && IsIndex(commits, index) && IsTopoOrder(ParentLinks(index, commits), order)
    && |sorted| == |order|
    && forall k :: 0 <= k < |order| ==> order[k] < |commits| && sorted[k] == commits[order[k]]
  }

  // ----- what that order is of the commits ---------------------------------------------------

  /** A hash is listed exactly where it stands for a position, the one of the index. */
  lemma IndexStandsFor(commits: seq<CommitInfo>, index: map<Oid, nat>, h: Oid, p: nat)
    requires IsIndex(commits, index)
    ensures CommitOrder.StandsFor(commits, h, p) <==> h in index && index[h] == p
  {
    if CommitOrder.StandsFor(commits, h, p) {
      assert commits[p].hash in index && p <= index[h];
    }
  }

  lemma LinkIsChild(commits: seq<CommitInfo>, index: map<Oid, nat>, i: nat, p: nat)
    requires IsIndex(commits, index) && i < |commits|
    ensures p in ParentLinks(index, commits)[i] <==> CommitOrder.IsChild(commits, i, p)
  {
    var ps := commits[i].Parents();
    forall k | 0 <= k < |ps|
      ensures CommitOrder.StandsFor(commits, ps[k].hash, p) <==> ps[k].hash in index && index[ps[k].hash] == p
    {
      IndexStandsFor(commits, index, ps[k].hash, p);
    }
  }

  lemma ReadyIsPlaceable(commits: seq<CommitInfo>, index: map<Oid, nat>, placed: seq<nat>, p: nat)
    requires IsIndex(commits, index)
    ensures Ready(ParentLinks(index, commits), Elements(placed), p) <==> CommitOrder.ChildrenPlaced(commits, placed, p)
  {
    var g := ParentLinks(index, commits);
    forall i: nat | i < |commits|
      ensures p in g[i] <==> CommitOrder.IsChild(commits, i, p)
    {
      LinkIsChild(commits, index, i, p);
    }
  }

  lemma PathIsLineage(commits: seq<CommitInfo>, index: map<Oid, nat>, s: seq<nat>)
    requires IsIndex(commits, index)
    ensures IsPath(ParentLinks(index, commits), s) <==> CommitOrder.IsLineage(commits, s)
  {
    if |s| >= 1 && forall k :: 0 <= k < |s| ==> s[k] < |commits| {
      forall k | 0 < k < |s|
        ensures s[k] in ParentLinks(index, commits)[s[k - 1]] <==> CommitOrder.IsChild(commits, s[k - 1], s[k])
      {
        LinkIsChild(commits, index, s[k - 1], s[k]);
      }
    }
  }

  lemma CycleIsLoop(commits: seq<CommitInfo>, index: map<Oid, nat>, x: nat)
    requires IsIndex(commits, index)
    ensures OnCycle(ParentLinks(index, commits), x) <==> CommitOrder.OnLoop(commits, x)
  {
    var g := ParentLinks(index, commits);
    if s :| IsCycle(g, s) && s[0] == x {
      PathIsLineage(commits, index, s);
      assert CommitOrder.IsLoop(commits, s);
    }
    if s :| CommitOrder.IsLoop(commits, s) && s[0] == x {
      PathIsLineage(commits, index, s);
      assert IsCycle(g, s);
    }
  }

  lemma BelowIsBelow(commits: seq<CommitInfo>, index: map<Oid, nat>, x: nat)
    requires IsIndex(commits, index)
    ensures BelowCycle(ParentLinks(index, commits), x) <==> CommitOrder.BelowLoop(commits, x)
  {
    var g := ParentLinks(index, commits);
    if s :| IsPath(g, s) && s[|s| - 1] == x && OnCycle(g, s[0]) {
      PathIsLineage(commits, index, s);
      CycleIsLoop(commits, index, s[0]);
    }
    if s :| CommitOrder.IsLineage(commits, s) && s[|s| - 1] == x && CommitOrder.OnLoop(commits, s[0]) {
      PathIsLineage(commits, index, s);
      CycleIsLoop(commits, index, s[0]);
    }
  }

  /** The parent of hash `h` is listed and ready. */
  ghost predicate ReadyParent(g: Links, placed: set<nat>, index: map<Oid, nat>, h: Oid) {
    h in index && Ready(g, placed, index[h])
  }

  /** The first ready one of the parents is the first ready one of their positions. */
  lemma {:induction false} FirstOfPositions(g: Links, placed: set<nat>, index: map<Oid, nat>, ps: seq<GraphParent>,
                                            m: nat)
    returns (n: nat)
    requires m < |ps| && ReadyParent(g, placed, index, ps[m].hash)
    requires forall l :: 0 <= l < m ==> !ReadyParent(g, placed, index, ps[l].hash)
    ensures FirstReady(g, placed, Positions(index, ps), n) && Positions(index, ps)[n] == index[ps[m].hash]
    decreases m
  {
    if m == 0 {
      n := 0;
    } else {
      assert !ReadyParent(g, placed, index, ps[0].hash);
      n := FirstOfPositions(g, placed, index, ps[1..], m - 1);
      if ps[0].hash in index {
        NextReady(g, placed, index[ps[0].hash], Positions(index, ps[1..]), n);
        n := n + 1;
      }
    }
  }

  lemma NextReady(g: Links, placed: set<nat>, p: nat, ps: seq<nat>, n: nat)
    requires !Ready(g, placed, p) && FirstReady(g, placed, ps, n)
    ensures FirstReady(g, placed, [p] + ps, n + 1) && ([p] + ps)[n + 1] == ps[n]
  {
    forall l | 0 <= l < n + 1
      ensures !Ready(g, placed, ([p] + ps)[l])
    {
      assert l > 0 ==> ([p] + ps)[l] == ps[l - 1];
    }
  }

  lemma PlaceableIsReady(commits: seq<CommitInfo>, index: map<Oid, nat>, placed: seq<nat>, h: Oid)
    requires IsIndex(commits, index)
    ensures CommitOrder.Placeable(commits, placed, h)
      <==> ReadyParent(ParentLinks(index, commits), Elements(placed), index, h)
  {
    if h in index {
      IndexStandsFor(commits, index, h, index[h]);
      ReadyIsPlaceable(commits, index, placed, index[h]);
    }
    if p: nat :| CommitOrder.StandsFor(commits, h, p) && CommitOrder.ChildrenPlaced(commits, placed, p) {
      IndexStandsFor(commits, index, h, p);
    }
  }

  lemma FirstParentIsNext(commits: seq<CommitInfo>, index: map<Oid, nat>, order: seq<nat>, k: nat, m: nat)
    requires IsIndex(commits, index) && IsTopoOrder(ParentLinks(index, commits), order) && k < |order|
    ensures CommitOrder.ParentFollows(commits, order, k, m)
  {
    var g := ParentLinks(index, commits);
    var placed := order[..k + 1];
    if order[k] < |commits| && CommitOrder.FirstPlaceable(commits, placed, order[k], m) {
      var ps := commits[order[k]].Parents();
      forall l | 0 <= l <= m
        ensures CommitOrder.Placeable(commits, placed, ps[l].hash)
          <==> ReadyParent(g, Elements(placed), index, ps[l].hash)
      {
        PlaceableIsReady(commits, index, placed, ps[l].hash);
      }
      var n := FirstOfPositions(g, Elements(placed), index, ps, m);
      assert g[order[k]] == Positions(index, ps);
      IndexStandsFor(commits, index, ps[m].hash, index[ps[m].hash]);
    }
  }

  lemma OrdersCommits(commits: seq<CommitInfo>, index: map<Oid, nat>, order: seq<nat>)
    requires IsIndex(commits, index) && IsTopoOrder(ParentLinks(index, commits), order)
    ensures CommitOrder.Orders(commits, order)
  {
    forall x: nat
      ensures x in order <==> x < |commits| && !CommitOrder.BelowLoop(commits, x)
      ensures IsHead(ParentLinks(index, commits), x) <==> CommitOrder.IsTop(commits, x)
    {
      BelowIsBelow(commits, index, x);
      ReadyIsPlaceable(commits, index, [], x);
      assert Elements([]) == {};
    }
    forall k | 0 <= k < |order|
      ensures CommitOrder.ChildrenPlaced(commits, order[..k], order[k])
    {
      ReadyIsPlaceable(commits, index, order[..k], order[k]);
    }
    forall k, m: nat | 0 <= k < |order|
      ensures CommitOrder.ParentFollows(commits, order, k, m)
    {
      FirstParentIsNext(commits, index, order, k, m);
    }
  }

  /** The commits in timeline order. */
  method TopoOrder(commits: seq<CommitInfo>) returns (sorted: seq<CommitInfo>)
    ensures exists index, order :: Sorts(commits, sorted, index, order)
    ensures exists order :: CommitOrder.OrdersAs(commits, order, sorted)
  {
    var positions := Index(commits);
    var g := ParentLinks(positions, commits);
    var placed := Kahn(g);
    assert forall k :: 0 <= k < |placed| ==> placed[k] in placed;
    sorted := TakeAll(commits, placed);
    assert Sorts(commits, sorted, positions, placed);
    OrdersCommits(commits, positions, placed);
    assert CommitOrder.OrdersAs(commits, placed, sorted);
  }
}
