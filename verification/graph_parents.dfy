/** The timeline's edges: each shown commit joined to its nearest shown ancestors. */
module GraphParents {
  import opened Wrappers
  import opened CommitGraph
  import opened TimelineTypes

  type Edges = map<Oid, seq<GraphParent>>

  /** `b` is a proper ancestor of `a`. */
  ghost predicate Below(repo: Repo, a: Oid, b: Oid)
    requires Valid(repo)
  {
    a != b && Descends(repo, a, b)
  }

  /** There is an edge from `a` to `b`. */
  ghost predicate Linked(edges: Edges, a: Oid, b: Oid) {
    a in edges && exists p :: p in edges[a] && p.hash == b
  }

  /** A route of one or more edges from `a` to `b`. */
  ghost predicate IsRoute(edges: Edges, route: seq<Oid>, a: Oid, b: Oid) {
    && |route| >= 2 && route[0] == a && route[|route| - 1] == b
    && forall k :: 0 < k < |route| ==> Linked(edges, route[k - 1], route[k])
  }

  ghost predicate Reaches(edges: Edges, a: Oid, b: Oid) {
    exists route :: IsRoute(edges, route, a, b)
  }

  /** The edges reach exactly the shown proper ancestors, and no edge is implied by others. */
  ghost predicate IsTransitiveReduction(repo: Repo, shown: seq<Oid>, edges: Edges)
    requires Valid(repo)
  {
    && (forall a, b :: Linked(edges, a, b) ==> a in shown && b in shown)
    && (forall a, b :: a in shown && b in shown ==> (Reaches(edges, a, b) <==> Below(repo, a, b)))
    && (forall a, b, route :: Linked(edges, a, b) && IsRoute(edges, route, a, b) ==> route == [a, b])
  }

  // ----- the edges of one commit -----------------------------------------------------------

  /** `b` is a shown proper ancestor of `a` with no other shown commit on the way. */
  ghost predicate Nearest(repo: Repo, shown: seq<Oid>, a: Oid, b: Oid)
    requires Valid(repo)
  {
    && b in shown && Below(repo, a, b)
    && !exists m :: m in shown && Below(repo, a, m) && Below(repo, m, b)
  }

  const USIZE_MAX: nat := 0xffff_ffff_ffff_ffff

  /** The first of `parents` through which `b` is reached. */
  function Via(repo: Repo, parents: seq<Oid>, b: Oid, from: nat): (via: nat)
    requires Valid(repo) && from <= |parents|
    ensures via == USIZE_MAX || (from <= via < |parents| && Descends(repo, parents[via], b))
    ensures forall k :: from <= k < |parents| && k < via ==> !Descends(repo, parents[k], b)
    decreases |parents| - from
  {
    if from == |parents| then USIZE_MAX
    else if Descends(repo, parents[from], b) then from
    else Via(repo, parents, b, from + 1)
  }

  predicate Precedes(x: (nat, Oid), y: (nat, Oid)) {
    x.0 < y.0 || (x.0 == y.0 && x.1 <= y.1)
  }

  ghost predicate Sorted(s: seq<(nat, Oid)>) {
    forall i, j :: 0 <= i < j < |s| ==> Precedes(s[i], s[j])
  }

  function Insert(x: (nat, Oid), s: seq<(nat, Oid)>): seq<(nat, Oid)> {
    if s == [] then [x]
    else if Precedes(x, s[0]) then [x] + s
    else [s[0]] + Insert(x, s[1..])
  }

  function Sort(s: seq<(nat, Oid)>): seq<(nat, Oid)> {
    if s == [] then [] else Insert(s[0], Sort(s[1..]))
  }

  lemma Prepended(x: (nat, Oid), s: seq<(nat, Oid)>)
    requires Sorted(s) && forall k :: 0 <= k < |s| ==> Precedes(x, s[k])
    ensures Sorted([x] + s)
  {
  }

  lemma {:induction false} Inserted(x: (nat, Oid), s: seq<(nat, Oid)>)
    requires Sorted(s)
    ensures Sorted(Insert(x, s)) && multiset(Insert(x, s)) == multiset(s) + multiset{x}
    decreases |s|
  {
    if s != [] {
      assert s == [s[0]] + s[1..];
      if Precedes(x, s[0]) {
        assert forall k :: 0 < k < |s| ==> Precedes(s[0], s[k]);
        Prepended(x, s);
      } else {
        var t := Insert(x, s[1..]);
        Inserted(x, s[1..]);
        forall k | 0 <= k < |t|
          ensures Precedes(s[0], t[k])
        {
          assert t[k] in multiset(t);
          assert t[k] == x || t[k] in s[1..];
        }
        Prepended(s[0], t);
      }
    }
  }

  lemma {:induction false} SortSorts(s: seq<(nat, Oid)>)
    ensures Sorted(Sort(s)) && multiset(Sort(s)) == multiset(s)
    decreases |s|
  {
    if s != [] {
      assert s == [s[0]] + s[1..];
      SortSorts(s[1..]);
      Inserted(s[0], Sort(s[1..]));
    }
  }

  /** The commits of the keys, in their order. */
  function Seconds(s: seq<(nat, Oid)>): (r: seq<Oid>)
    ensures |r| == |s| && forall k :: 0 <= k < |s| ==> r[k] == s[k].1
  {
    seq(|s|, k requires 0 <= k < |s| => s[k].1)
  }

  function Hashes(parents: seq<GraphParent>): (r: seq<Oid>)
    ensures |r| == |parents| && forall k :: 0 <= k < |parents| ==> r[k] == parents[k].hash
  {
    seq(|parents|, k requires 0 <= k < |parents| => parents[k].hash)
  }

  lemma SecondsOfMore(x: (nat, Oid), s: seq<(nat, Oid)>)
    ensures multiset(Seconds([x] + s)) == multiset{x.1} + multiset(Seconds(s))
  {
    assert Seconds([x] + s) == [x.1] + Seconds(s);
  }

  lemma {:induction false} SecondsInserted(x: (nat, Oid), s: seq<(nat, Oid)>)
    ensures multiset(Seconds(Insert(x, s))) == multiset{x.1} + multiset(Seconds(s))
    decreases |s|
  {
    SecondsOfMore(x, s);
    if s == [] {
      assert [x] + s == [x];
    } else {
      assert s == [s[0]] + s[1..];
      SecondsInserted(x, s[1..]);
      SecondsOfMore(s[0], s[1..]);
      SecondsOfMore(s[0], Insert(x, s[1..]));
    }
  }

  lemma {:induction false} SecondsSorted(s: seq<(nat, Oid)>)
    ensures multiset(Seconds(Sort(s))) == multiset(Seconds(s))
    decreases |s|
  {
    if s != [] {
      assert s == [s[0]] + s[1..];
      SecondsSorted(s[1..]);
      SecondsInserted(s[0], Sort(s[1..]));
      SecondsOfMore(s[0], s[1..]);
    }
  }

  /** Each of the nearest is listed as often as it is among `shown`, and nothing else is. */
  ghost predicate ListedAsShown(repo: Repo, shown: seq<Oid>, a: Oid, hashes: seq<Oid>)
    requires Valid(repo)
  {
    forall b :: multiset(hashes)[b] == if Nearest(repo, shown, a, b) then multiset(shown)[b] else 0
  }

  /** `parents` are the edges of `a`: its nearest shown ancestors, those reached through an
    * earlier parent first, elided where the ancestor is no parent itself.
    */
  ghost predicate IsParentList(repo: Repo, shown: seq<Oid>, a: Oid, parents: seq<GraphParent>)
    requires Valid(repo)
  {
    && a in repo
    && (forall b :: (exists p :: p in parents && p.hash == b) <==> Nearest(repo, shown, a, b))
    && (forall p :: p in parents ==> (p.elided <==> p.hash !in repo[a].parents))
    && (forall i, j :: 0 <= i < j < |parents| ==>
          Precedes((Via(repo, repo[a].parents, parents[i].hash, 0), parents[i].hash),
                   (Via(repo, repo[a].parents, parents[j].hash, 0), parents[j].hash)))
    && ListedAsShown(repo, shown, a, Hashes(parents))
  }

  ghost predicate IsParentMap(repo: Repo, shown: seq<Oid>, edges: Edges)
    requires Valid(repo)
  {
    && (forall a :: a in edges <==> a in shown)
    && (forall a :: a in shown ==> IsParentList(repo, shown, a, edges[a]))
  }

  method Ancestry(repo: Repo, shown: seq<Oid>) returns (ancestry: set<(Oid, Oid)>)
    requires Valid(repo)
    ensures forall a, b :: (a, b) in ancestry <==> a in shown && b in shown && Below(repo, a, b)
  {
    ancestry := {};
    for i := 0 to |shown|
      invariant forall a, b :: (a, b) in ancestry <==> a in shown[..i] && b in shown && Below(repo, a, b)
    {
      var a := shown[i];
      ghost var done := ancestry;
      for j := 0 to |shown|
        invariant forall x, b :: (x, b) in ancestry <==>
          (x, b) in done || (x == a && b in shown[..j] && Below(repo, a, b))
      {
        if a != shown[j] && Descends(repo, a, shown[j]) {
          ancestry := ancestry + {(a, shown[j])};
        }
      }
    }
  }

  method FindNearest(repo: Repo, shown: seq<Oid>, ancestry: set<(Oid, Oid)>, a: Oid) returns (found: seq<Oid>)
    requires Valid(repo) && a in shown
    requires forall x, y :: (x, y) in ancestry <==> x in shown && y in shown && Below(repo, x, y)
    ensures ListedAsShown(repo, shown, a, found)
  {
    found := [];
    for i := 0 to |shown|
      invariant forall b :: multiset(found)[b] == if Nearest(repo, shown, a, b) then multiset(shown[..i])[b] else 0
    {
      var b := shown[i];
      assert shown[..i + 1] == shown[..i] + [b];
      if (a, b) in ancestry && !exists m | m in shown :: (a, m) in ancestry && (m, b) in ancestry {
        found := found + [b];
      }
    }
    assert shown[..|shown|] == shown;
  }

  lemma FoundAreNearest(repo: Repo, shown: seq<Oid>, a: Oid, found: seq<Oid>)
    requires Valid(repo) && ListedAsShown(repo, shown, a, found)
    ensures forall b :: b in found <==> Nearest(repo, shown, a, b)
  {
    assert forall b :: b in found <==> b in multiset(found);
    assert forall b :: b in shown <==> b in multiset(shown);
  }

  method NearestParents(repo: Repo, shown: seq<Oid>, ancestry: set<(Oid, Oid)>, a: Oid)
      returns (parents: seq<GraphParent>)
    requires Valid(repo) && a in repo && a in shown
    requires forall x, y :: (x, y) in ancestry <==> x in shown && y in shown && Below(repo, x, y)
    ensures IsParentList(repo, shown, a, parents)
  {
    var realParents := repo[a].parents;
    var found := FindNearest(repo, shown, ancestry, a);
    FoundAreNearest(repo, shown, a, found);
    var keyed := seq(|found|, k requires 0 <= k < |found| => (Via(repo, realParents, found[k], 0), found[k]));
    var nearest := Sort(keyed);
    KeysSorted(repo, realParents, found, keyed, nearest);
    parents := seq(|nearest|, k requires 0 <= k < |nearest| => GraphParent(nearest[k].1, nearest[k].1 !in realParents));
    ParentsOfKeys(found, nearest, parents);
    KeysListed(found, keyed, nearest, parents);
  }

  lemma KeysListed(found: seq<Oid>, keyed: seq<(nat, Oid)>, nearest: seq<(nat, Oid)>, parents: seq<GraphParent>)
    requires nearest == Sort(keyed) && |keyed| == |found| && |parents| == |nearest|
    requires forall k :: 0 <= k < |found| ==> keyed[k].1 == found[k]
    requires forall k :: 0 <= k < |nearest| ==> parents[k].hash == nearest[k].1
    ensures multiset(Hashes(parents)) == multiset(found)
  {
    SecondsSorted(keyed);
    assert Seconds(keyed) == found && Hashes(parents) == Seconds(nearest);
  }

  lemma KeysSorted(repo: Repo, realParents: seq<Oid>, found: seq<Oid>, keyed: seq<(nat, Oid)>, sorted: seq<(nat, Oid)>)
    requires Valid(repo) && |keyed| == |found| && sorted == Sort(keyed)
    requires forall k :: 0 <= k < |found| ==> keyed[k] == (Via(repo, realParents, found[k], 0), found[k])
    ensures Sorted(sorted)
    ensures forall k :: 0 <= k < |sorted| ==> sorted[k].0 == Via(repo, realParents, sorted[k].1, 0)
    ensures forall b :: b in found <==> exists v: nat :: (v, b) in sorted
  {
    SortSorts(keyed);
    SortKeepsKeys(found, keyed, sorted);
    forall k | 0 <= k < |sorted|
      ensures sorted[k].0 == Via(repo, realParents, sorted[k].1, 0)
    {
      assert sorted[k] in keyed;
    }
  }

  lemma ParentsOfKeys(found: seq<Oid>, keys: seq<(nat, Oid)>, parents: seq<GraphParent>)
    requires |parents| == |keys| && forall k :: 0 <= k < |keys| ==> parents[k].hash == keys[k].1
    requires forall b :: b in found <==> exists v: nat :: (v, b) in keys
    ensures forall x: Oid :: (exists p :: p in parents && p.hash == x) <==> x in found
  {
    forall x: Oid
      ensures (exists p :: p in parents && p.hash == x) <==> x in found
    {
      if x in found {
        var v: nat :| (v, x) in keys;
        var k :| 0 <= k < |keys| && keys[k] == (v, x);
        assert parents[k] in parents && parents[k].hash == x;
      }
      if p :| p in parents && p.hash == x {
        var k :| 0 <= k < |parents| && parents[k] == p;
        assert keys[k] in keys && keys[k] == (keys[k].0, x);
      }
    }
  }

  lemma SortKeepsKeys(found: seq<Oid>, keyed: seq<(nat, Oid)>, sorted: seq<(nat, Oid)>)
    requires |keyed| == |found| && forall k :: 0 <= k < |found| ==> keyed[k].1 == found[k]
    requires multiset(sorted) == multiset(keyed)
    ensures forall x :: x in sorted <==> x in keyed
    ensures forall b :: b in found <==> exists v: nat :: (v, b) in sorted
  {
    assert forall x :: x in sorted <==> x in multiset(sorted);
    assert forall x :: x in keyed <==> x in multiset(keyed);
    forall b | b in found
      ensures exists v: nat :: (v, b) in sorted
    {
      var k :| 0 <= k < |found| && found[k] == b;
      assert keyed[k] in keyed && keyed[k] == (keyed[k].0, b);
    }
  }

  /** Connect each shown commit to its nearest shown ancestors. Fails with a shown commit the
    * repository does not have.
    */
  method GraphParents(repo: Repo, shown: seq<Oid>) returns (r: Result<Edges, Oid>)
    requires Valid(repo)
    ensures r.Err? ==> r.error in shown && r.error !in repo
    ensures r.Ok? <==> forall c :: c in shown ==> c in repo
    ensures r.Ok? ==> IsParentMap(repo, shown, r.value)
  {
    var ancestry := Ancestry(repo, shown);
    var edges: Edges := map[];
    for i := 0 to |shown|
      invariant forall c :: c in shown[..i] ==> c in repo
      invariant forall a :: a in edges <==> a in shown[..i]
      invariant forall a :: a in edges ==> IsParentList(repo, shown, a, edges[a])
    {
      var a := shown[i];
      if a !in repo {
        return Err(a);
      }
      var parents := NearestParents(repo, shown, ancestry, a);
      edges := edges[a := parents];
    }
    assert shown[..|shown|] == shown;
    r := Ok(edges);
  }

  // ----- the order of a commit's edges ---------------------------------------------------------

  /** `b` is reached through the `k`-th real parent of `a`. */
  ghost predicate Through(repo: Repo, a: Oid, k: nat, b: Oid)
    requires Valid(repo) && a in repo
  {
    k < |repo[a].parents| && Descends(repo, repo[a].parents[k], b)
  }

  lemma {:induction false} ViaFound(repo: Repo, parents: seq<Oid>, b: Oid, k: nat, from: nat)
    requires Valid(repo) && from <= k < |parents| && Descends(repo, parents[k], b)
    ensures Via(repo, parents, b, from) <= k && Descends(repo, parents[Via(repo, parents, b, from)], b)
    decreases k - from
  {
    if from < k && !Descends(repo, parents[from], b) {
      ViaFound(repo, parents, b, k, from + 1);
    }
  }

  /** The first real parent that an edge is reached through. */
  lemma FirstThrough(repo: Repo, shown: seq<Oid>, a: Oid, parents: seq<GraphParent>, i: nat)
    requires Valid(repo) && IsParentList(repo, shown, a, parents) && i < |parents|
    ensures Through(repo, a, Via(repo, repo[a].parents, parents[i].hash, 0), parents[i].hash)
  {
    assert parents[i] in parents;
    assert Nearest(repo, shown, a, parents[i].hash);
    var x :| x in repo[a].parents && Descends(repo, x, parents[i].hash);
    var k: nat :| k < |repo[a].parents| && repo[a].parents[k] == x;
    ViaFound(repo, repo[a].parents, parents[i].hash, k, 0);
  }

  /** An edge that is reached through a real parent stands before one that is reached through
    * neither that nor an earlier one.
    */
  lemma EarlierParentFirst(repo: Repo, shown: seq<Oid>, a: Oid, parents: seq<GraphParent>, i: nat, j: nat, k: nat)
    requires Valid(repo) && IsParentList(repo, shown, a, parents)
    requires i < |parents| && j < |parents| && Through(repo, a, k, parents[i].hash)
    requires forall l: nat :: l <= k ==> !Through(repo, a, l, parents[j].hash)
    ensures i < j
  {
    ViaFound(repo, repo[a].parents, parents[i].hash, k, 0);
    FirstThrough(repo, shown, a, parents, j);
    assert i != j;
  }

  /** Of two that are first reached through the same one, the lesser hash stands first. */
  lemma LesserHashFirst(repo: Repo, shown: seq<Oid>, a: Oid, parents: seq<GraphParent>, i: nat, j: nat, k: nat)
    requires Valid(repo) && IsParentList(repo, shown, a, parents) && i < j < |parents|
    requires Through(repo, a, k, parents[i].hash) && Through(repo, a, k, parents[j].hash)
    requires forall l: nat :: l < k ==> !Through(repo, a, l, parents[i].hash) && !Through(repo, a, l, parents[j].hash)
    ensures parents[i].hash <= parents[j].hash
  {
    FirstThrough(repo, shown, a, parents, i);
    FirstThrough(repo, shown, a, parents, j);
    ViaFound(repo, repo[a].parents, parents[i].hash, k, 0);
    ViaFound(repo, repo[a].parents, parents[j].hash, k, 0);
  }

  lemma TwoCopies(s: seq<Oid>, i: nat, j: nat)
    requires i < j < |s| && s[i] == s[j]
    ensures multiset(s)[s[i]] >= 2
  {
    assert s == s[..j] + [s[j]] + s[j + 1..];
    assert s[..j][i] in multiset(s[..j]);
  }

  lemma {:induction false} OneCopy(s: seq<Oid>, b: Oid)
    requires forall i, j :: 0 <= i < j < |s| ==> s[i] != s[j]
    ensures multiset(s)[b] <= 1
    decreases |s|
  {
    if s != [] {
      var t := s[..|s| - 1];
      assert s == t + [s[|s| - 1]];
      OneCopy(t, b);
      if s[|s| - 1] == b {
        assert b !in t;
      }
    }
  }

  /** Where no commit is shown twice, no edge is listed twice. */
  lemma EdgesListedOnce(repo: Repo, shown: seq<Oid>, a: Oid, parents: seq<GraphParent>, i: nat, j: nat)
    requires Valid(repo) && IsParentList(repo, shown, a, parents) && i < j < |parents|
    requires forall k, l :: 0 <= k < l < |shown| ==> shown[k] != shown[l]
    ensures parents[i].hash != parents[j].hash
  {
    if parents[i].hash == parents[j].hash {
      TwoCopies(Hashes(parents), i, j);
      OneCopy(shown, parents[i].hash);
    }
  }

  // ----- why they are the transitive reduction -----------------------------------------------

  lemma LinkIsNearest(repo: Repo, shown: seq<Oid>, edges: Edges, a: Oid, b: Oid)
    requires Valid(repo) && IsParentMap(repo, shown, edges)
    ensures Linked(edges, a, b) <==> a in shown && Nearest(repo, shown, a, b)
  {
    if a in shown {
      assert IsParentList(repo, shown, a, edges[a]);
    }
  }

  /** Every route of edges goes down to a shown proper ancestor. */
  lemma {:induction false} RoutesDescend(repo: Repo, shown: seq<Oid>, edges: Edges, route: seq<Oid>, a: Oid, b: Oid)
    requires Valid(repo) && IsParentMap(repo, shown, edges) && IsRoute(edges, route, a, b)
    ensures a in shown && b in shown && Below(repo, a, b)
    decreases |route|
  {
    var n := |route|;
    LinkIsNearest(repo, shown, edges, route[n - 2], b);
    if n > 2 {
      var m := route[n - 2];
      assert IsRoute(edges, route[..n - 1], a, m);
      RoutesDescend(repo, shown, edges, route[..n - 1], a, m);
      BelowTransitive(repo, a, m, b);
    } else {
      LinkIsNearest(repo, shown, edges, a, b);
    }
  }

  lemma BelowTransitive(repo: Repo, a: Oid, b: Oid, c: Oid)
    requires Valid(repo) && Below(repo, a, b) && Below(repo, b, c)
    ensures Below(repo, a, c)
  {
    DescendsTransitive(repo, a, b, c);
    if a == c {
      DescendsAntisymmetric(repo, a, b);
    }
  }

  /** Every shown proper ancestor is reached. */
  lemma {:induction false} AncestorsReached(repo: Repo, shown: seq<Oid>, edges: Edges, a: Oid, b: Oid)
      returns (route: seq<Oid>)
    requires Valid(repo) && IsParentMap(repo, shown, edges)
    requires a in shown && b in shown && Below(repo, a, b)
    ensures IsRoute(edges, route, a, b)
    decreases repo[a].generation - repo[b].generation
  {
    DescentLowersGeneration(repo, a, b);
    if m :| m in shown && Below(repo, a, m) && Below(repo, m, b) {
      DescentLowersGeneration(repo, a, m);
      DescentLowersGeneration(repo, m, b);
      var upper := AncestorsReached(repo, shown, edges, a, m);
      var lower := AncestorsReached(repo, shown, edges, m, b);
      route := upper + lower[1..];
    } else {
      LinkIsNearest(repo, shown, edges, a, b);
      route := [a, b];
    }
  }

  /** No edge doubles a longer route. */
  lemma NoEdgeImplied(repo: Repo, shown: seq<Oid>, edges: Edges, a: Oid, b: Oid, route: seq<Oid>)
    requires Valid(repo) && IsParentMap(repo, shown, edges)
    requires Linked(edges, a, b) && IsRoute(edges, route, a, b)
    ensures route == [a, b]
  {
    if |route| > 2 {
      var m := route[1];
      assert IsRoute(edges, route[..2], a, m);
      assert IsRoute(edges, route[1..], m, b) by {
        forall k | 0 < k < |route[1..]|
          ensures Linked(edges, route[1..][k - 1], route[1..][k])
        {
          assert Linked(edges, route[k], route[k + 1]);
        }
      }
      RoutesDescend(repo, shown, edges, route[..2], a, m);
      RoutesDescend(repo, shown, edges, route[1..], m, b);
      LinkIsNearest(repo, shown, edges, a, b);
    }
  }

  lemma ParentMapIsReduction(repo: Repo, shown: seq<Oid>, edges: Edges)
    requires Valid(repo) && IsParentMap(repo, shown, edges)
    ensures IsTransitiveReduction(repo, shown, edges)
  {
    forall a, b | Linked(edges, a, b)
      ensures a in shown && b in shown
    {
      LinkIsNearest(repo, shown, edges, a, b);
    }
    forall a, b | a in shown && b in shown
      ensures Reaches(edges, a, b) <==> Below(repo, a, b)
    {
      if route :| IsRoute(edges, route, a, b) {
        RoutesDescend(repo, shown, edges, route, a, b);
      }
      if Below(repo, a, b) {
        var route := AncestorsReached(repo, shown, edges, a, b);
      }
    }
    forall a, b, route | Linked(edges, a, b) && IsRoute(edges, route, a, b)
      ensures route == [a, b]
    {
      NoEdgeImplied(repo, shown, edges, a, b, route);
    }
  }

  /** An elided edge hides a commit: something lies between, and nothing between is shown. */
  lemma ElidedHides(repo: Repo, shown: seq<Oid>, edges: Edges, a: Oid, p: GraphParent)
    requires Valid(repo) && IsParentMap(repo, shown, edges) && a in shown && p in edges[a]
    ensures p.elided ==> exists x :: Below(repo, a, x) && Below(repo, x, p.hash) && x !in shown
    ensures forall x :: Below(repo, a, x) && Below(repo, x, p.hash) ==> x !in shown
  {
    LinkIsNearest(repo, shown, edges, a, p.hash);
    assert IsParentList(repo, shown, a, edges[a]);
    if p.elided {
      var x :| x in repo[a].parents && Descends(repo, x, p.hash);
      assert Descends(repo, x, x) && Below(repo, a, x) && Below(repo, x, p.hash);
    }
  }
}
