/** What the timeline's order of commits is, said of the commits themselves. */
module CommitOrder {
  import opened CommitGraph
  import opened TimelineTypes

  /** The commit at `p` is the one that a parent of hash `h` stands for: the last listed. */
  ghost predicate StandsFor(commits: seq<CommitInfo>, h: Oid, p: nat) {
    p < |commits| && commits[p].hash == h && forall q :: p < q < |commits| ==> commits[q].hash != h
  }

  ghost predicate IsChild(commits: seq<CommitInfo>, c: nat, p: nat) {
    c < |commits| && exists m :: 0 <= m < |commits[c].Parents()| && StandsFor(commits, commits[c].Parents()[m].hash, p)
  }

  /** From child to parent, step by step. */
  ghost predicate IsLineage(commits: seq<CommitInfo>, s: seq<nat>) {
    && |s| >= 1
    && (forall k :: 0 <= k < |s| ==> s[k] < |commits|)
    && (forall k :: 0 < k < |s| ==> IsChild(commits, s[k - 1], s[k]))
  }

  /** A lineage that comes back to where it starts. */
  ghost predicate IsLoop(commits: seq<CommitInfo>, s: seq<nat>) {
    IsLineage(commits, s) && |s| >= 2 && s[0] == s[|s| - 1]
  }

  ghost predicate OnLoop(commits: seq<CommitInfo>, x: nat) {
    exists s :: IsLoop(commits, s) && s[0] == x
  }

  /** On a cycle of parents, or reached from one. */
  ghost predicate BelowLoop(commits: seq<CommitInfo>, x: nat) {
    exists s :: IsLineage(commits, s) && s[|s| - 1] == x && OnLoop(commits, s[0])
  }

  ghost predicate ChildrenPlaced(commits: seq<CommitInfo>, placed: seq<nat>, p: nat) {
    forall c: nat :: IsChild(commits, c, p) ==> c in placed
  }

  /** No listed commit has it as a parent. */
  ghost predicate IsTop(commits: seq<CommitInfo>, p: nat) {
    ChildrenPlaced(commits, [], p)
  }

  /** The parent of hash `h` is listed, and all its children are placed. */
  ghost predicate Placeable(commits: seq<CommitInfo>, placed: seq<nat>, h: Oid) {
    exists p: nat :: StandsFor(commits, h, p) && ChildrenPlaced(commits, placed, p)
  }

  /** The first of the parents of `c` that can be placed is the `m`-th. */
  ghost predicate FirstPlaceable(commits: seq<CommitInfo>, placed: seq<nat>, c: nat, m: nat)
    requires c < |commits|
  {
    && m < |commits[c].Parents()|
    && Placeable(commits, placed, commits[c].Parents()[m].hash)
    && forall l :: 0 <= l < m ==> !Placeable(commits, placed, commits[c].Parents()[l].hash)
  }

  /** Each commit once, all but those below a cycle; children before parents; those without children
    * in the order listed; and next after a commit the first of its parents that can be placed.
    */
  ghost predicate Orders(commits: seq<CommitInfo>, order: seq<nat>) {
    && (forall a, b :: 0 <= a < b < |order| ==> order[a] != order[b])
    && (forall x: nat :: x in order <==> x < |commits| && !BelowLoop(commits, x))
    && (forall k :: 0 <= k < |order| ==> ChildrenPlaced(commits, order[..k], order[k]))
    && (forall a, b :: 0 <= a < b < |order| && IsTop(commits, order[a]) && IsTop(commits, order[b]) ==>
          order[a] < order[b])
    && (forall k, m: nat :: 0 <= k < |order| ==> ParentFollows(commits, order, k, m))
  }

  ghost predicate ParentFollows(commits: seq<CommitInfo>, order: seq<nat>, k: nat, m: nat)
    requires k < |order|
  {
    order[k] < |commits| && FirstPlaceable(commits, order[..k + 1], order[k], m) ==>
      k + 1 < |order| && StandsFor(commits, commits[order[k]].Parents()[m].hash, order[k + 1])
  }

  ghost predicate OrdersAs(commits: seq<CommitInfo>, order: seq<nat>, sorted: seq<CommitInfo>) {
    && Orders(commits, order) && |sorted| == |order|
    && forall k :: 0 <= k < |order| ==> order[k] < |commits| && sorted[k] == commits[order[k]]
  }

  // ----- by hash, where no commit is listed twice ----------------------------------------------------

  ghost predicate DistinctHashes(commits: seq<CommitInfo>) {
    forall i, j :: 0 <= i < j < |commits| ==> commits[i].hash != commits[j].hash
  }

  ghost predicate HasParent(c: CommitInfo, h: Oid) {
    exists p :: p in c.Parents() && p.hash == h
  }

  ghost predicate Listed(commits: seq<CommitInfo>, h: Oid) {
    exists c :: c in commits && c.hash == h
  }

  /** All listed children of `h` are among `placed`. */
  ghost predicate ChildrenAmong(commits: seq<CommitInfo>, placed: seq<CommitInfo>, h: Oid) {
    forall c :: c in commits && HasParent(c, h) ==> c in placed
  }

  ghost predicate NextParent(commits: seq<CommitInfo>, placed: seq<CommitInfo>, c: CommitInfo, m: nat) {
    && m < |c.Parents()|
    && Listed(commits, c.Parents()[m].hash) && ChildrenAmong(commits, placed, c.Parents()[m].hash)
    && forall l :: 0 <= l < m ==>
         !(Listed(commits, c.Parents()[l].hash) && ChildrenAmong(commits, placed, c.Parents()[l].hash))
  }

  lemma ChildByHash(commits: seq<CommitInfo>, c: nat, p: nat)
    requires DistinctHashes(commits) && c < |commits| && p < |commits|
    ensures IsChild(commits, c, p) <==> HasParent(commits[c], commits[p].hash)
  {
    if HasParent(commits[c], commits[p].hash) {
      var g :| g in commits[c].Parents() && g.hash == commits[p].hash;
      var m :| 0 <= m < |commits[c].Parents()| && commits[c].Parents()[m] == g;
      assert StandsFor(commits, commits[c].Parents()[m].hash, p);
    }
    if m :| 0 <= m < |commits[c].Parents()| && StandsFor(commits, commits[c].Parents()[m].hash, p) {
      assert commits[c].Parents()[m] in commits[c].Parents();
    }
  }

  lemma PlaceableByHash(commits: seq<CommitInfo>, order: seq<nat>, sorted: seq<CommitInfo>, n: nat, h: Oid)
    requires DistinctHashes(commits) && OrdersAs(commits, order, sorted) && n <= |order|
    ensures Placeable(commits, order[..n], h) <==> Listed(commits, h) && ChildrenAmong(commits, sorted[..n], h)
  {
    if Placeable(commits, order[..n], h) {
      var p: nat :| StandsFor(commits, h, p) && ChildrenPlaced(commits, order[..n], p);
      assert commits[p] in commits;
      forall c | c in commits && HasParent(c, h)
        ensures c in sorted[..n]
      {
        var i :| 0 <= i < |commits| && commits[i] == c;
        ChildByHash(commits, i, p);
        var k :| 0 <= k < n && order[..n][k] == i;
        assert sorted[..n][k] == c;
      }
    }
    if Listed(commits, h) && ChildrenAmong(commits, sorted[..n], h) {
      var c :| c in commits && c.hash == h;
      var p :| 0 <= p < |commits| && commits[p] == c;
      forall i: nat | IsChild(commits, i, p)
        ensures i in order[..n]
      {
        ChildByHash(commits, i, p);
        assert commits[i] in sorted[..n];
        var k :| 0 <= k < n && sorted[..n][k] == commits[i];
        assert order[k] == i && order[..n][k] == i;
      }
      assert StandsFor(commits, h, p);
    }
  }

  /** The first parent all of whose children have come is next. */
  lemma FirstParentFollows(commits: seq<CommitInfo>, order: seq<nat>, sorted: seq<CommitInfo>, k: nat, m: nat)
    requires DistinctHashes(commits) && OrdersAs(commits, order, sorted)
    requires k < |sorted| && NextParent(commits, sorted[..k + 1], sorted[k], m)
    ensures k + 1 < |sorted| && sorted[k + 1].hash == sorted[k].Parents()[m].hash
  {
    var ps := sorted[k].Parents();
    forall l | 0 <= l <= m
      ensures Placeable(commits, order[..k + 1], ps[l].hash)
        <==> Listed(commits, ps[l].hash) && ChildrenAmong(commits, sorted[..k + 1], ps[l].hash)
    {
      PlaceableByHash(commits, order, sorted, k + 1, ps[l].hash);
    }
    assert ParentFollows(commits, order, k, m);
  }

  /** No parent comes before its child. */
  lemma ChildrenFirst(commits: seq<CommitInfo>, order: seq<nat>, sorted: seq<CommitInfo>, i: nat, j: nat)
    requires DistinctHashes(commits) && OrdersAs(commits, order, sorted)
    requires i < |sorted| && j < |sorted| && HasParent(sorted[i], sorted[j].hash)
    ensures i < j
  {
    ChildByHash(commits, order[i], order[j]);
    assert ChildrenPlaced(commits, order[..j], order[j]);
    var k :| 0 <= k < j && order[..j][k] == order[i];
  }
}
