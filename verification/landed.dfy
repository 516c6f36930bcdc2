/** Whether a deployed revision has reached the tracked branch, either untouched or rewritten
  * under new hashes that keep its change-ids.
  */
module Landed {
  import opened Wrappers
  import opened CommitGraph

  const MAX_LANDED_SCAN := 1000

  ghost predicate InHistory(repo: Repo, tip: Oid, c: Oid)
    requires Valid(repo)
  {
    c in repo && Descends(repo, tip, c)
  }

  /** Reached from `from`, but not from a hidden commit. */
  ghost predicate Shown(repo: Repo, from: Oid, hidden: Option<Oid>, c: Oid)
    requires Valid(repo)
  {
    InHistory(repo, from, c) && (hidden.None? || !Descends(repo, hidden.value, c))
  }

  /** A walk visits what is shown once each, in an order of the library's choosing. */
  ghost predicate IsWalk(repo: Repo, walk: seq<Oid>, from: Oid, hidden: Option<Oid>)
    requires Valid(repo)
  {
    && (forall c :: c in walk <==> Shown(repo, from, hidden, c))
    && (forall i, j :: 0 <= i < j < |walk| ==> walk[i] != walk[j])
  }

  /** `c` and `d` are the same change. */
  predicate SameChange(repo: Repo, c: Oid, d: Oid) {
    c in repo && d in repo && repo[c].changeId.Some? && repo[c].changeId == repo[d].changeId
  }

  /** Some commit on `tip`, since the hidden one, carries the change of `c`. */
  ghost predicate HasCounterpart(repo: Repo, tip: Oid, hidden: Option<Oid>, c: Oid)
    requires Valid(repo)
  {
    exists d :: Shown(repo, tip, hidden, d) && SameChange(repo, c, d)
  }

  /** Every commit on `revision` but not on `tip` has a counterpart on `tip` since `base`. */
  ghost predicate AllLandedSince(repo: Repo, revision: Oid, tip: Oid, base: Option<Oid>)
    requires Valid(repo)
  {
    revision in repo && forall c :: Shown(repo, revision, Some(tip), c) ==> HasCounterpart(repo, tip, base, c)
  }

  /** No commit of `revision` still to land is the same change as one of the common history. */
  ghost predicate LandsNewChanges(repo: Repo, revision: Oid, tip: Oid)
    requires Valid(repo)
  {
    forall c, d :: Shown(repo, revision, Some(tip), c) && InHistory(repo, revision, d) && InHistory(repo, tip, d) ==>
      !SameChange(repo, c, d)
  }

  /** What a merge base has to be; which one, when there are several, is not settled. */
  ghost predicate IsBase(repo: Repo, base: Option<Oid>, a: Oid, b: Oid)
    requires Valid(repo)
  {
    base.Some? ==> InHistory(repo, a, base.value) && InHistory(repo, b, base.value)
  }

  method IsAncestor(repo: Repo, ancestor: Oid, descendant: Oid) returns (yes: bool)
    requires Valid(repo)
    ensures yes <==> InHistory(repo, descendant, ancestor)
  {
    if ancestor == descendant {
      return ancestor in repo;
    }
    if ancestor !in repo {
      return false;
    }
    yes := Descends(repo, descendant, ancestor);
  }

  /** Sound for every base and every length of the walks, true of every ancestor of the tip, and
    * exact when neither walk is longer than the scan.
    */
  method ChangesLanded(repo: Repo, revision: Oid, tip: Oid, ghost base: Option<Oid>,
                       branchWalk: seq<Oid>, deployedWalk: seq<Oid>)
    returns (all: bool)
    requires Valid(repo) && tip in repo
    requires revision in repo ==> IsWalk(repo, branchWalk, tip, base) && IsWalk(repo, deployedWalk, revision, Some(tip))
    ensures all ==> AllLandedSince(repo, revision, tip, base)
    ensures InHistory(repo, tip, revision) ==> all
    ensures |branchWalk| <= MAX_LANDED_SCAN && |deployedWalk| <= MAX_LANDED_SCAN ==>
      (all <==> AllLandedSince(repo, revision, tip, base))
  {
    if revision !in repo {
      return false;
    }
    NothingToLand(repo, revision, tip, deployedWalk);
    var landed: set<string> := {};
    var n := if |branchWalk| < MAX_LANDED_SCAN then |branchWalk| else MAX_LANDED_SCAN;
    for i := 0 to n
      invariant forall id :: id in landed <==> Carried(repo, branchWalk[..i], id)
    {
      var commit := branchWalk[i];
      assert Shown(repo, tip, base, commit);
      assert branchWalk[..i + 1] == branchWalk[..i] + [commit];
      if repo[commit].changeId.Some? {
        landed := landed + {repo[commit].changeId.value};
      }
    }
    for scanned := 0 to |deployedWalk|
      invariant scanned <= MAX_LANDED_SCAN
      invariant forall j :: 0 <= j < scanned ==> HasCounterpart(repo, tip, base, deployedWalk[j])
    {
      if scanned >= MAX_LANDED_SCAN {
        return false;
      }
      var commit := deployedWalk[scanned];
      assert Shown(repo, revision, Some(tip), commit);
      CarriedIsCounterpart(repo, tip, base, branchWalk, n, commit);
      if repo[commit].changeId.None? || repo[commit].changeId.value !in landed {
        return false;
      }
    }
    return true;
  }

  /** Ancestry, generalised: a plain ancestor is always on the branch. */
  method OnBranch(repo: Repo, revision: Oid, tip: Oid, ghost base: Option<Oid>, branchWalk: seq<Oid>,
      deployedWalk: seq<Oid>)
    returns (yes: bool)
    requires Valid(repo) && tip in repo
    requires revision in repo ==> IsWalk(repo, branchWalk, tip, base) && IsWalk(repo, deployedWalk, revision, Some(tip))
    ensures InHistory(repo, tip, revision) ==> yes
    ensures yes ==> AllLandedSince(repo, revision, tip, base)
    ensures |branchWalk| <= MAX_LANDED_SCAN && |deployedWalk| <= MAX_LANDED_SCAN ==>
      (yes <==> AllLandedSince(repo, revision, tip, base))
  {
    yes := IsAncestor(repo, revision, tip);
    if yes {
      NothingToLand(repo, revision, tip, deployedWalk);
      return true;
    }
    yes := ChangesLanded(repo, revision, tip, base, branchWalk, deployedWalk);
  }

  ghost predicate Carried(repo: Repo, commits: seq<Oid>, id: string) {
    exists c :: c in commits && c in repo && repo[c].changeId == Some(id)
  }

  lemma NothingToLand(repo: Repo, revision: Oid, tip: Oid, deployedWalk: seq<Oid>)
    requires Valid(repo) && IsWalk(repo, deployedWalk, revision, Some(tip))
    ensures InHistory(repo, tip, revision) ==> deployedWalk == []
  {
    if InHistory(repo, tip, revision) && deployedWalk != [] {
      var c := deployedWalk[0];
      assert Shown(repo, revision, Some(tip), c);
      DescendsTransitive(repo, tip, revision, c);
    }
  }

  lemma CarriedIsCounterpart(repo: Repo, tip: Oid, base: Option<Oid>, branchWalk: seq<Oid>, n: nat, c: Oid)
    requires Valid(repo) && IsWalk(repo, branchWalk, tip, base) && n <= |branchWalk| && c in repo
    ensures repo[c].changeId.Some? && Carried(repo, branchWalk[..n], repo[c].changeId.value) ==>
      HasCounterpart(repo, tip, base, c)
    ensures n == |branchWalk| && HasCounterpart(repo, tip, base, c) ==>
      repo[c].changeId.Some? && Carried(repo, branchWalk[..n], repo[c].changeId.value)
  {
    if repo[c].changeId.Some? && Carried(repo, branchWalk[..n], repo[c].changeId.value) {
      var d :| d in branchWalk[..n] && d in repo && repo[d].changeId == repo[c].changeId;
      assert Shown(repo, tip, base, d) && SameChange(repo, c, d);
    }
    if n == |branchWalk| && HasCounterpart(repo, tip, base, c) {
      var d :| Shown(repo, tip, base, d) && SameChange(repo, c, d);
      assert d in branchWalk[..n];
    }
  }

  /** A counterpart of what is still to land is not in the common history. */
  lemma CounterpartIsNew(repo: Repo, revision: Oid, tip: Oid, base: Option<Oid>, c: Oid, d: Oid)
    requires Valid(repo) && IsBase(repo, base, revision, tip) && LandsNewChanges(repo, revision, tip)
    requires Shown(repo, revision, Some(tip), c) && Shown(repo, tip, None, d) && SameChange(repo, c, d)
    ensures Shown(repo, tip, base, d)
  {
    if base.Some? && Descends(repo, base.value, d) {
      DescendsTransitive(repo, revision, base.value, d);
    }
  }

  /** Where no change still to land is in the common history already, the choice of base is of no consequence:
    * looking since any common ancestor finds what looking over the whole branch finds.
    */
  lemma BaseIsImmaterial(repo: Repo, revision: Oid, tip: Oid, base: Option<Oid>)
    requires Valid(repo) && IsBase(repo, base, revision, tip) && LandsNewChanges(repo, revision, tip)
    ensures AllLandedSince(repo, revision, tip, base) <==> AllLandedSince(repo, revision, tip, None)
  {
    forall c | Shown(repo, revision, Some(tip), c)
      ensures HasCounterpart(repo, tip, base, c) <==> HasCounterpart(repo, tip, None, c)
    {
      if HasCounterpart(repo, tip, base, c) {
        var d :| Shown(repo, tip, base, d) && SameChange(repo, c, d);
        assert Shown(repo, tip, None, d);
      }
      if HasCounterpart(repo, tip, None, c) {
        var d :| Shown(repo, tip, None, d) && SameChange(repo, c, d);
        CounterpartIsNew(repo, revision, tip, base, c, d);
      }
    }
  }

  /** Otherwise the answer does depend on the base. Where two merges of `a` and `b`
    * diverge, and the revision is the same change as `a` and as nothing else, the base `b` leaves
    * that change to be found on the branch, and the base `a` hides it.
    */
  lemma BaseMattersWhenChangesRepeat(repo: Repo, a: Oid, b: Oid, revision: Oid, tip: Oid)
    requires Valid(repo) && a in repo && b in repo && revision in repo && tip in repo && a != b && revision != tip
    requires repo[a].parents == [] && repo[b].parents == []
    requires repo[revision].parents == [a, b] && repo[tip].parents == [a, b]
    requires forall d :: SameChange(repo, revision, d) <==> d == a || d == revision
    ensures IsBase(repo, Some(a), revision, tip) && IsBase(repo, Some(b), revision, tip)
    ensures AllLandedSince(repo, revision, tip, Some(b)) && !AllLandedSince(repo, revision, tip, Some(a))
  {
    MergedRoots(repo, a, b, revision);
    MergedRoots(repo, a, b, tip);
    assert Shown(repo, tip, Some(b), a);
    assert HasCounterpart(repo, tip, Some(b), revision) && !HasCounterpart(repo, tip, Some(a), revision);
    assert Shown(repo, revision, Some(tip), revision);
  }

  lemma MergedRoots(repo: Repo, a: Oid, b: Oid, merge: Oid)
    requires Valid(repo) && a in repo && b in repo && merge in repo
    requires repo[a].parents == [] && repo[b].parents == [] && repo[merge].parents == [a, b]
    ensures forall d :: Descends(repo, a, d) <==> d == a
    ensures forall d :: Descends(repo, b, d) <==> d == b
    ensures forall d :: Descends(repo, merge, d) <==> d in {merge, a, b}
  {
    assert a in repo[merge].parents && b in repo[merge].parents;
    assert Descends(repo, a, a) && Descends(repo, b, b);
  }

  /** Once landed, a revision stays landed however the branch advances and whichever bases are
    * found then.
    */
  lemma StaysLanded(smaller: Repo, larger: Repo, revision: Oid, tip: Oid, next: Oid, base: Option<Oid>,
      nextBase: Option<Oid>)
    requires Valid(smaller) && Valid(larger) && Extends(larger, smaller) && tip in smaller &&
      Descends(larger, next, tip)
    requires AllLandedSince(smaller, revision, tip, base)
    requires IsBase(larger, nextBase, revision, next) && LandsNewChanges(larger, revision, next)
    ensures AllLandedSince(larger, revision, next, nextBase)
  {
    forall c | Shown(larger, revision, Some(next), c)
      ensures HasCounterpart(larger, next, None, c)
    {
      DescendsStable(smaller, larger, revision, c);
      DescendsStable(smaller, larger, tip, c);
      if Descends(larger, tip, c) {
        DescendsTransitive(larger, next, tip, c);
      }
      HistoryStored(smaller, revision, c);
      assert Shown(smaller, revision, Some(tip), c);
      var d :| Shown(smaller, tip, base, d) && SameChange(smaller, c, d);
      DescendsStable(smaller, larger, tip, d);
      DescendsTransitive(larger, next, tip, d);
      assert Shown(larger, next, None, d) && SameChange(larger, c, d);
    }
    BaseIsImmaterial(larger, revision, next, nextBase);
  }
}
