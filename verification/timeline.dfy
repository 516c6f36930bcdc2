/** The timeline as a whole: from the commit graph, through edges and order, to the picture. */
module Timeline {
  import opened CommitGraph
  import opened TimelineTypes
  import opened TimelineListing
  import TopoOrder
  import opened GraphParents
  import opened GraphLayout

  /** Some line runs from the node of row `i` to that of row `j`. */
  ghost predicate Joined(rows: seq<Row>, i: nat, j: nat) {
    exists lane: nat, elided :: Line(rows, i, j, lane, elided)
  }

  /** A way down the picture from the node of row `i` to that of row `j`, line by line. */
  ghost predicate IsDescent(rows: seq<Row>, stops: seq<nat>, i: nat, j: nat) {
    && |stops| >= 2 && stops[0] == i && stops[|stops| - 1] == j
    && forall k :: 0 < k < |stops| ==> Joined(rows, stops[k - 1], stops[k])
  }

  ghost predicate ConnectedDown(rows: seq<Row>, i: nat, j: nat) {
    exists stops :: IsDescent(rows, stops, i, j)
  }

  ghost predicate Lists(commits: seq<CommitInfo>, c: Oid) {
    exists i :: 0 <= i < |commits| && commits[i].hash == c
  }

  /** A listed commit, with its edges the first time it is listed, if the repository has it. */
  function DescriptionAt(listed: seq<Oid>, edges: Edges, i: nat): (info: CommitInfo)
    requires i < |listed|
    ensures info.hash == listed[i]
  {
    if listed[i] !in edges then Missing(listed[i])
    else Complete(listed[i], if listed[i] in listed[..i] then [] else edges[listed[i]])
  }

  ghost predicate Describes(listed: seq<Oid>, edges: Edges, infos: seq<CommitInfo>) {
    |infos| == |listed| && forall i :: 0 <= i < |listed| ==> infos[i] == DescriptionAt(listed, edges, i)
  }

  /** No commit listed more than once is an ancestor or a descendant of another. */
  ghost predicate RepeatsStandAlone(repo: Repo, listed: seq<Oid>)
    requires Valid(repo)
  {
    forall c, d :: Repeated(listed, c) && d in listed ==> !Below(repo, c, d) && !Below(repo, d, c)
  }

  ghost predicate Permutes(order: seq<nat>, n: nat) {
    TopoOrder.NoRepeats(order) && |order| == n && forall x: nat :: x in order <==> x < n
  }

  /** `commits` are the listed ones, each as often as it is listed, in the given order. */
  ghost predicate RearrangesBy(commits: seq<CommitInfo>, listed: seq<Oid>, order: seq<nat>) {
    && Permutes(order, |listed|) && |commits| == |listed|
    && forall k :: 0 <= k < |order| ==> order[k] < |listed| && commits[k].hash == listed[order[k]]
  }

  ghost predicate Rearranges(commits: seq<CommitInfo>, listed: seq<Oid>) {
    exists order :: RearrangesBy(commits, listed, order)
  }

  // ----- the order is complete -----------------------------------------------------------

  /** Links between positions are edges between the commits there. */
  lemma LinksAreEdges(listed: seq<Oid>, edges: Edges, infos: seq<CommitInfo>, index: map<Oid, nat>, i: nat, p: nat)
    requires Describes(listed, edges, infos) && TopoOrder.IsIndex(infos, index) && i < |infos| && p < |infos|
    requires p in TopoOrder.ParentLinks(index, infos)[i]
    ensures Linked(edges, listed[i], listed[p])
  {
    var ps := infos[i].Parents();
    var k :| 0 <= k < |ps| && ps[k].hash in index && index[ps[k].hash] == p;
    assert infos[i] == DescriptionAt(listed, edges, i);
    assert ps[k] in edges[listed[i]] && ps[k].hash == listed[p];
  }

  /** And all of them, between commits listed once. */
  lemma EdgesAreLinks(listed: seq<Oid>, edges: Edges, infos: seq<CommitInfo>, index: map<Oid, nat>, i: nat, p: nat)
    requires Describes(listed, edges, infos) && TopoOrder.IsIndex(infos, index) && i < |infos| && p < |infos|
    requires Linked(edges, listed[i], listed[p]) && !Repeated(listed, listed[i]) && !Repeated(listed, listed[p])
    ensures p in TopoOrder.ParentLinks(index, infos)[i]
  {
    NotBefore(listed, i);
    var ps := edges[listed[i]];
    assert infos[i] == DescriptionAt(listed, edges, i) == Complete(listed[i], ps);
    assert infos[p].hash == listed[p] && index[listed[p]] == p;
    var k :| 0 <= k < |ps| && ps[k].hash == listed[p];
    assert ps[k].hash in index && index[ps[k].hash] == p;
  }

  lemma NotBefore(listed: seq<Oid>, i: nat)
    requires i < |listed| && !Repeated(listed, listed[i])
    ensures listed[i] !in listed[..i]
  {
  }

  /** Following links goes strictly down in ancestry. */
  lemma {:induction false} PathsDescend(repo: Repo, shown: seq<Oid>, listed: seq<Oid>, edges: Edges,
      infos: seq<CommitInfo>, index: map<Oid, nat>, s: seq<nat>)
    requires Valid(repo) && IsParentMap(repo, shown, edges)
    requires Describes(listed, edges, infos) && TopoOrder.IsIndex(infos, index)
    requires TopoOrder.IsPath(TopoOrder.ParentLinks(index, infos), s) && |s| >= 2
    ensures Below(repo, listed[s[0]], listed[s[|s| - 1]])
    decreases |s|
  {
    var n := |s|;
    var g := TopoOrder.ParentLinks(index, infos);
    assert s[n - 1] in g[s[n - 2]];
    LinksAreEdges(listed, edges, infos, index, s[n - 2], s[n - 1]);
    LinkIsNearest(repo, shown, edges, listed[s[n - 2]], listed[s[n - 1]]);
    if n > 2 {
      TopoOrder.SubPath(g, s, 0, n - 1);
      assert s[0..n - 1][n - 2] == s[n - 2];
      PathsDescend(repo, shown, listed, edges, infos, index, s[0..n - 1]);
      BelowTransitive(repo, listed[s[0]], listed[s[n - 2]], listed[s[n - 1]]);
    }
  }

  lemma NothingLeftOut(repo: Repo, shown: seq<Oid>, listed: seq<Oid>, edges: Edges, infos: seq<CommitInfo>,
      index: map<Oid, nat>, order: seq<nat>)
    requires Valid(repo) && IsParentMap(repo, shown, edges)
    requires Describes(listed, edges, infos) && TopoOrder.IsIndex(infos, index)
    requires TopoOrder.IsTopoOrder(TopoOrder.ParentLinks(index, infos), order)
    ensures Permutes(order, |infos|)
  {
    var g := TopoOrder.ParentLinks(index, infos);
    forall x: nat
      ensures !TopoOrder.BelowCycle(g, x)
    {
      if TopoOrder.BelowCycle(g, x) {
        var s :| TopoOrder.IsPath(g, s) && s[|s| - 1] == x && TopoOrder.OnCycle(g, s[0]);
        var c :| TopoOrder.IsCycle(g, c) && c[0] == s[0];
        PathsDescend(repo, shown, listed, edges, infos, index, c);
      }
    }
    TopoOrder.DistinctCard(order);
    assert TopoOrder.Elements(order) == TopoOrder.NumbersBelow(|g|);
  }

  // ----- lines are edges --------------------------------------------------------------------

  /** No edge comes from or leads to a commit of several rows. */
  ghost predicate LinkedOnce(edges: Edges, commits: seq<CommitInfo>) {
    forall i, j, c: Oid :: 0 <= i < j < |commits| && commits[i].hash == commits[j].hash ==>
      !Linked(edges, commits[i].hash, c) && !Linked(edges, c, commits[i].hash)
  }

  /** `commits` are the described ones in an order with children first. */
  ghost predicate Ordered(edges: Edges, commits: seq<CommitInfo>) {
    && LinkedOnce(edges, commits)
    && (forall i, p :: 0 <= i < |commits| ==>
          (p in commits[i].Parents() <==> commits[i].hash in edges && p in edges[commits[i].hash]))
    && (forall a: Oid :: a in edges ==> Lists(commits, a))
    && (forall i, j :: 0 <= i < |commits| && 0 <= j < |commits| && Linked(edges, commits[i].hash, commits[j].hash) ==>
      i < j)
  }

  /** How the listed commits were described and sorted; `order` are the positions they had. */
  datatype Sorting = Sorting(shown: seq<Oid>, listed: seq<Oid>, edges: Edges, infos: seq<CommitInfo>,
                             index: map<Oid, nat>, order: seq<nat>, commits: seq<CommitInfo>)
  {
    ghost predicate Valid(repo: Repo)
      requires CommitGraph.Valid(repo)
    {
      && IsParentMap(repo, shown, edges) && (forall c :: c in shown <==> c in listed && c in repo)
      && Describes(listed, edges, infos) && TopoOrder.Sorts(infos, commits, index, order)
      && Permutes(order, |infos|) && RearrangesBy(commits, listed, order)
    }
  }

  lemma SortedHashes(listed: seq<Oid>, edges: Edges, infos: seq<CommitInfo>, index: map<Oid, nat>, order: seq<nat>,
      commits: seq<CommitInfo>)
    requires Describes(listed, edges, infos) && TopoOrder.Sorts(infos, commits, index, order) &&
      Permutes(order, |infos|)
    ensures RearrangesBy(commits, listed, order)
  {
    forall k | 0 <= k < |order|
      ensures order[k] < |listed| && commits[k].hash == listed[order[k]]
    {
      assert infos[order[k]] == DescriptionAt(listed, edges, order[k]);
    }
  }

  lemma RowsLinkedOnce(repo: Repo, shown: seq<Oid>, listed: seq<Oid>, edges: Edges, order: seq<nat>,
      commits: seq<CommitInfo>)
    requires Valid(repo) && IsParentMap(repo, shown, edges) && (forall a :: a in shown ==> a in listed)
    requires RearrangesBy(commits, listed, order) && RepeatsStandAlone(repo, listed)
    ensures LinkedOnce(edges, commits)
  {
    forall i, j, c: Oid | 0 <= i < j < |commits| && commits[i].hash == commits[j].hash
      ensures !Linked(edges, commits[i].hash, c) && !Linked(edges, c, commits[i].hash)
    {
      RowsAreRepeats(listed, order, commits, i, j);
      RepeatsHaveNoLinks(repo, shown, listed, edges, commits[i].hash, c);
    }
  }

  lemma RowsChildrenFirst(repo: Repo, listed: seq<Oid>, edges: Edges, infos: seq<CommitInfo>, index: map<Oid, nat>,
      order: seq<nat>, i: nat, j: nat)
    requires Describes(listed, edges, infos) && TopoOrder.IsIndex(infos, index)
    requires TopoOrder.IsTopoOrder(TopoOrder.ParentLinks(index, infos), order) && Permutes(order, |infos|)
    requires i < |order| && j < |order| && order[i] < |listed| && order[j] < |listed|
    requires Linked(edges, listed[order[i]], listed[order[j]])
    requires !Repeated(listed, listed[order[i]]) && !Repeated(listed, listed[order[j]])
    ensures i < j
  {
    EdgesAreLinks(listed, edges, infos, index, order[i], order[j]);
    LinkedInOrder(TopoOrder.ParentLinks(index, infos), order, i, j);
  }

  lemma SortedIsOrdered(repo: Repo, s: Sorting)
    requires Valid(repo) && s.Valid(repo) && RepeatsStandAlone(repo, s.listed)
    ensures Ordered(s.edges, s.commits)
  {
    ListedHaveRows(s.listed, s.order, s.commits);
    RowsLinkedOnce(repo, s.shown, s.listed, s.edges, s.order, s.commits);
    forall i, p | 0 <= i < |s.commits|
      ensures p in s.commits[i].Parents() <==> s.commits[i].hash in s.edges && p in s.edges[s.commits[i].hash]
    {
      ParentsAreEdges(repo, s.shown, s.listed, s.edges, s.infos, s.order[i], p);
    }
    forall i, j | 0 <= i < |s.commits| && 0 <= j < |s.commits| && Linked(s.edges, s.commits[i].hash, s.commits[j].hash)
      ensures i < j
    {
      RepeatsHaveNoLinks(repo, s.shown, s.listed, s.edges, s.commits[i].hash, s.commits[j].hash);
      RepeatsHaveNoLinks(repo, s.shown, s.listed, s.edges, s.commits[j].hash, s.commits[i].hash);
      RowsChildrenFirst(repo, s.listed, s.edges, s.infos, s.index, s.order, i, j);
    }
  }

  lemma RepeatsHaveNoLinks(repo: Repo, shown: seq<Oid>, listed: seq<Oid>, edges: Edges, c: Oid, d: Oid)
    requires Valid(repo) && IsParentMap(repo, shown, edges) && (forall a :: a in shown ==> a in listed)
    requires RepeatsStandAlone(repo, listed)
    ensures Repeated(listed, c) ==> !Linked(edges, c, d) && !Linked(edges, d, c)
  {
    LinkIsNearest(repo, shown, edges, c, d);
    LinkIsNearest(repo, shown, edges, d, c);
  }

  /** What is listed again has no edges to go without. */
  lemma ParentsAreEdges(repo: Repo, shown: seq<Oid>, listed: seq<Oid>, edges: Edges, infos: seq<CommitInfo>, x: nat,
      p: GraphParent)
    requires Valid(repo) && IsParentMap(repo, shown, edges) && (forall a :: a in shown ==> a in listed)
    requires Describes(listed, edges, infos) && RepeatsStandAlone(repo, listed) && x < |infos|
    ensures p in infos[x].Parents() <==> listed[x] in edges && p in edges[listed[x]]
  {
    var c := listed[x];
    assert infos[x] == DescriptionAt(listed, edges, x);
    if c in edges && p in edges[c] && c in listed[..x] {
      var y :| 0 <= y < x && listed[..x][y] == c;
      assert listed[y] == c && Repeated(listed, c);
      RepeatsHaveNoLinks(repo, shown, listed, edges, c, p.hash);
    }
  }

  lemma RowsAreRepeats(listed: seq<Oid>, order: seq<nat>, commits: seq<CommitInfo>, i: nat, j: nat)
    requires RearrangesBy(commits, listed, order) && i < j < |commits| && commits[i].hash == commits[j].hash
    ensures Repeated(listed, commits[i].hash)
  {
    assert order[i] != order[j] && listed[order[i]] == listed[order[j]] == commits[i].hash;
    if order[j] < order[i] {
      assert listed[order[j]] == listed[order[i]];
    }
  }

  lemma ListedHaveRows(listed: seq<Oid>, order: seq<nat>, commits: seq<CommitInfo>)
    requires RearrangesBy(commits, listed, order)
    ensures forall a: Oid :: a in listed <==> Lists(commits, a)
  {
    forall a: Oid | a in listed
      ensures Lists(commits, a)
    {
      var x :| 0 <= x < |listed| && listed[x] == a;
      assert x in order;
      var k :| 0 <= k < |order| && order[k] == x;
      assert commits[k].hash == a;
    }
  }

  /** A child is before its parents in the order. */
  lemma LinkedInOrder(g: TopoOrder.Links, order: seq<nat>, i: nat, j: nat)
    requires TopoOrder.InRange(g) && TopoOrder.IsTopoOrder(g, order) && i < |order| && j < |order|
    requires order[i] < |g| && order[j] in g[order[i]]
    ensures i < j
  {
    assert TopoOrder.Ready(g, TopoOrder.Elements(order[..j]), order[j]);
    assert order[i] in order[..j];
    var i' :| 0 <= i' < j && order[i'] == order[i];
  }

  lemma LinesAreEdges(edges: Edges, commits: seq<CommitInfo>, rows: seq<Row>, i: nat, j: nat)
    requires |rows| == |commits| && LinesAreParentLinks(commits, rows) && Ordered(edges, commits)
    requires i < |rows| && j < |rows|
    ensures Joined(rows, i, j) <==> Linked(edges, commits[i].hash, commits[j].hash)
  {
    if Linked(edges, commits[i].hash, commits[j].hash) {
      var e :| e in edges[commits[i].hash] && e.hash == commits[j].hash;
      assert e == GraphParent(commits[j].hash, e.elided) && e in commits[i].Parents();
      assert forall k :: i < k < j ==> commits[k].hash != commits[j].hash;
      assert exists lane: nat :: Line(rows, i, j, lane, e.elided);
    }
    if lane: nat, elided :| Line(rows, i, j, lane, elided) {
      assert GraphParent(commits[j].hash, elided) in commits[i].Parents();
    }
  }

  lemma DescentIsRoute(edges: Edges, commits: seq<CommitInfo>, rows: seq<Row>, stops: seq<nat>, i: nat, j: nat)
    requires |rows| == |commits| && LinesAreParentLinks(commits, rows) && Ordered(edges, commits)
    requires IsDescent(rows, stops, i, j) && i < |rows| && j < |rows|
    ensures Reaches(edges, commits[i].hash, commits[j].hash)
  {
    forall k | 0 <= k < |stops|
      ensures stops[k] < |rows|
    {
      if k > 0 {
        assert Joined(rows, stops[k - 1], stops[k]);
      }
    }
    var route := seq(|stops|, k requires 0 <= k < |stops| => commits[stops[k]].hash);
    forall k | 0 < k < |route|
      ensures Linked(edges, route[k - 1], route[k])
    {
      LinesAreEdges(edges, commits, rows, stops[k - 1], stops[k]);
    }
    assert IsRoute(edges, route, commits[i].hash, commits[j].hash);
  }

  ghost function RowOf(commits: seq<CommitInfo>, c: Oid): (r: nat)
    requires Lists(commits, c)
    ensures r < |commits| && commits[r].hash == c
  {
    var i: nat :| i < |commits| && commits[i].hash == c;
    i
  }

  /** Every commit on a route is listed. */
  lemma RouteIsListed(edges: Edges, commits: seq<CommitInfo>, route: seq<Oid>, a: Oid, b: Oid)
    requires Ordered(edges, commits) && Lists(commits, b) && IsRoute(edges, route, a, b)
    ensures forall k :: 0 <= k < |route| ==> Lists(commits, route[k])
  {
    forall k | 0 <= k < |route|
      ensures Lists(commits, route[k])
    {
      if k < |route| - 1 {
        assert Linked(edges, route[k + 1 - 1], route[k + 1]);
      }
    }
  }

  lemma LinkIsJoined(edges: Edges, commits: seq<CommitInfo>, rows: seq<Row>, a: Oid, b: Oid)
    requires |rows| == |commits| && LinesAreParentLinks(commits, rows) && Ordered(edges, commits)
    requires Lists(commits, a) && Lists(commits, b) && Linked(edges, a, b)
    ensures Joined(rows, RowOf(commits, a), RowOf(commits, b))
  {
    LinesAreEdges(edges, commits, rows, RowOf(commits, a), RowOf(commits, b));
  }

  lemma RowOfHash(edges: Edges, commits: seq<CommitInfo>, i: nat, c: Oid)
    requires Ordered(edges, commits) && i < |commits|
    requires Linked(edges, commits[i].hash, c) || Linked(edges, c, commits[i].hash)
    ensures Lists(commits, commits[i].hash) && RowOf(commits, commits[i].hash) == i
  {
  }

  lemma RouteIsJoined(edges: Edges, commits: seq<CommitInfo>, rows: seq<Row>, route: seq<Oid>, a: Oid, b: Oid)
    requires |rows| == |commits| && LinesAreParentLinks(commits, rows) && Ordered(edges, commits)
    requires Lists(commits, b) && IsRoute(edges, route, a, b)
    ensures forall k :: 0 <= k < |route| ==> Lists(commits, route[k])
    ensures forall k :: 0 < k < |route| ==> Joined(rows, RowOf(commits, route[k - 1]), RowOf(commits, route[k]))
  {
    RouteIsListed(edges, commits, route, a, b);
    forall k | 0 < k < |route|
      ensures Joined(rows, RowOf(commits, route[k - 1]), RowOf(commits, route[k]))
    {
      LinkIsJoined(edges, commits, rows, route[k - 1], route[k]);
    }
  }

  lemma RouteEnds(edges: Edges, commits: seq<CommitInfo>, route: seq<Oid>, i: nat, j: nat)
    requires Ordered(edges, commits) && i < |commits| && j < |commits|
    requires IsRoute(edges, route, commits[i].hash, commits[j].hash)
    ensures Lists(commits, route[0]) && RowOf(commits, route[0]) == i
    ensures Lists(commits, route[|route| - 1]) && RowOf(commits, route[|route| - 1]) == j
  {
    assert Linked(edges, route[0], route[1]) && Linked(edges, route[|route| - 2], route[|route| - 1]);
    RowOfHash(edges, commits, i, route[1]);
    RowOfHash(edges, commits, j, route[|route| - 2]);
  }

  lemma RouteIsDescent(edges: Edges, commits: seq<CommitInfo>, rows: seq<Row>, route: seq<Oid>, i: nat, j: nat)
    requires |rows| == |commits| && LinesAreParentLinks(commits, rows) && Ordered(edges, commits)
    requires i < |rows| && j < |rows| && IsRoute(edges, route, commits[i].hash, commits[j].hash)
    ensures ConnectedDown(rows, i, j)
  {
    RouteEnds(edges, commits, route, i, j);
    RouteIsJoined(edges, commits, rows, route, commits[i].hash, commits[j].hash);
    var stops := seq(|route|, k requires 0 <= k < |route| => RowOf(commits, route[k]));
    assert IsDescent(rows, stops, i, j);
  }

  /** One commit is drawn above and connected down to another exactly when it descends from it. */
  lemma PictureIsAncestry(repo: Repo, shown: seq<Oid>, edges: Edges, commits: seq<CommitInfo>, rows: seq<Row>, i: nat,
      j: nat)
    requires Valid(repo) && IsParentMap(repo, shown, edges) && Ordered(edges, commits)
    requires |rows| == |commits| && LinesAreParentLinks(commits, rows)
    requires forall c: Oid :: c in repo && Lists(commits, c) ==> c in shown
    requires i < |rows| && j < |rows|
    ensures ConnectedDown(rows, i, j) <==> Below(repo, commits[i].hash, commits[j].hash)
  {
    var a, b := commits[i].hash, commits[j].hash;
    ParentMapIsReduction(repo, shown, edges);
    if stops :| IsDescent(rows, stops, i, j) {
      DescentIsRoute(edges, commits, rows, stops, i, j);
      var route :| IsRoute(edges, route, a, b);
      RoutesDescend(repo, shown, edges, route, a, b);
    }
    if Below(repo, a, b) {
      DescentLowersGeneration(repo, a, b);
      assert Reaches(edges, a, b);
      var route :| IsRoute(edges, route, a, b);
      RouteIsDescent(edges, commits, rows, route, i, j);
    }
  }

  ghost predicate DrawsAncestry(repo: Repo, commits: seq<CommitInfo>, rows: seq<Row>)
    requires Valid(repo) && |rows| == |commits|
  {
    forall i, j :: 0 <= i < |rows| && 0 <= j < |rows| ==>
      (ConnectedDown(rows, i, j) <==> Below(repo, commits[i].hash, commits[j].hash))
  }

  lemma PictureIsWholeAncestry(repo: Repo, s: Sorting, rows: seq<Row>)
    requires Valid(repo) && s.Valid(repo) && RepeatsStandAlone(repo, s.listed)
    requires |rows| == |s.commits| && LinesAreParentLinks(s.commits, rows)
    ensures DrawsAncestry(repo, s.commits, rows)
  {
    SortedIsOrdered(repo, s);
    ListedHaveRows(s.listed, s.order, s.commits);
    forall i, j | 0 <= i < |rows| && 0 <= j < |rows|
      ensures ConnectedDown(rows, i, j) <==> Below(repo, s.commits[i].hash, s.commits[j].hash)
    {
      PictureIsAncestry(repo, s.shown, s.edges, s.commits, rows, i, j);
    }
  }

  lemma {:induction false} DescentGoesDown(rows: seq<Row>, stops: seq<nat>, i: nat, j: nat)
    requires IsDescent(rows, stops, i, j)
    ensures i < j
    decreases |stops|
  {
    var n := |stops|;
    assert Joined(rows, stops[n - 2], stops[n - 1]);
    if n > 2 {
      DescentGoesDown(rows, stops[..n - 1], i, stops[n - 2]);
    }
  }

  // ----- commits listed more than once ---------------------------------------------------------

  /** Whatever is drawn below the node of a row starts with a line from it to a parent. */
  lemma ConnectedHasParents(commits: seq<CommitInfo>, rows: seq<Row>, i: nat, j: nat)
    requires |rows| == |commits| && LinesAreParentLinks(commits, rows) && ConnectedDown(rows, i, j)
    ensures i < |rows| && commits[i].Parents() != []
  {
    var stops :| IsDescent(rows, stops, i, j);
    assert Joined(rows, stops[0], stops[1]);
    var lane: nat, elided :| Line(rows, i, stops[1], lane, elided);
    assert GraphParent(commits[stops[1]].hash, elided) in commits[i].Parents();
  }

  lemma {:induction false} StopsAreRows(rows: seq<Row>, stops: seq<nat>, i: nat, j: nat)
    requires IsDescent(rows, stops, i, j)
    ensures forall k :: 0 <= k < |stops| ==> stops[k] < |rows|
  {
    forall k | 0 <= k < |stops|
      ensures stops[k] < |rows|
    {
      assert k > 0 ==> Joined(rows, stops[k - 1], stops[k]);
      assert k == 0 ==> Joined(rows, stops[0], stops[1]);
    }
  }

  /** In a picture of ancestry, a row is joined to its nearest ancestor's by a single line. */
  lemma NearestIsJoined(repo: Repo, commits: seq<CommitInfo>, rows: seq<Row>, i: nat, j: nat)
    requires Valid(repo) && |rows| == |commits| && DrawsAncestry(repo, commits, rows)
    requires i < |rows| && j < |rows| && Below(repo, commits[i].hash, commits[j].hash)
    requires forall k :: 0 <= k < |commits| ==>
      !(Below(repo, commits[i].hash, commits[k].hash) && Below(repo, commits[k].hash, commits[j].hash))
    ensures Joined(rows, i, j)
  {
    var stops :| IsDescent(rows, stops, i, j);
    assert Joined(rows, stops[0], stops[1]);
    if |stops| > 2 {
      var m := stops[1];
      StopsAreRows(rows, stops, i, j);
      assert IsDescent(rows, stops[..2], i, m);
      assert IsDescent(rows, stops[1..], m, j) by {
        forall k | 0 < k < |stops[1..]|
          ensures Joined(rows, stops[1..][k - 1], stops[1..][k])
        {
          assert Joined(rows, stops[k + 1 - 1], stops[k + 1]);
        }
      }
      assert ConnectedDown(rows, i, m) && ConnectedDown(rows, m, j);
    }
  }

  lemma JoinedToNext(commits: seq<CommitInfo>, rows: seq<Row>, i: nat, j: nat)
    requires |rows| == |commits| && LinesAreParentLinks(commits, rows) && Joined(rows, i, j)
    ensures i < j < |rows| && forall k :: i < k < j ==> commits[k].hash != commits[j].hash
  {
    var lane: nat, elided :| Line(rows, i, j, lane, elided);
    assert GraphParent(commits[j].hash, elided) in commits[i].Parents();
  }

  /** Of two rows of one commit, no row is joined to both. */
  lemma JoinedToOne(commits: seq<CommitInfo>, rows: seq<Row>, i: nat, p: nat, q: nat)
    requires |rows| == |commits| && LinesAreParentLinks(commits, rows)
    requires p < q < |rows| && commits[p].hash == commits[q].hash && Joined(rows, i, p)
    ensures !Joined(rows, i, q)
  {
    JoinedToNext(commits, rows, i, p);
    if Joined(rows, i, q) {
      JoinedToNext(commits, rows, i, q);
    }
  }

  /** So a picture of ancestry has one row of a nearest ancestor. */
  lemma NearestHasOneRow(repo: Repo, commits: seq<CommitInfo>, rows: seq<Row>, i: nat, p: nat, q: nat)
    requires Valid(repo) && |rows| == |commits| && LinesAreParentLinks(commits, rows)
    requires i < |rows| && p < q < |rows| && commits[p].hash == commits[q].hash &&
      Below(repo, commits[i].hash, commits[p].hash)
    requires forall k :: 0 <= k < |commits| ==>
      !(Below(repo, commits[i].hash, commits[k].hash) && Below(repo, commits[k].hash, commits[p].hash))
    ensures !DrawsAncestry(repo, commits, rows)
  {
    if DrawsAncestry(repo, commits, rows) {
      NearestIsJoined(repo, commits, rows, i, p);
      NearestIsJoined(repo, commits, rows, i, q);
      JoinedToOne(commits, rows, i, p, q);
    }
  }

  /** Of two rows of one commit, one has no edges. */
  lemma OneHasNoParents(repo: Repo, s: Sorting, p: nat, q: nat)
    requires Valid(repo) && s.Valid(repo) && p < q < |s.commits| && s.commits[p].hash == s.commits[q].hash
    ensures s.commits[p].Parents() == [] || s.commits[q].Parents() == []
  {
    var x, y := s.order[p], s.order[q];
    assert s.infos[x] == DescriptionAt(s.listed, s.edges, x) && s.infos[y] == DescriptionAt(s.listed, s.edges, y);
    if x < y {
      assert s.listed[..y][x] == s.listed[y];
    } else {
      assert s.listed[..x][y] == s.listed[x];
    }
  }

  lemma RepeatsHaveRows(listed: seq<Oid>, order: seq<nat>, commits: seq<CommitInfo>, c: Oid) returns (p: nat, q: nat)
    requires RearrangesBy(commits, listed, order) && Repeated(listed, c)
    ensures p < q < |commits| && commits[p].hash == commits[q].hash == c
  {
    var x, y :| 0 <= x < y < |listed| && listed[x] == c && listed[y] == c;
    assert x in order && y in order;
    p :| p < |order| && order[p] == x;
    q :| q < |order| && order[q] == y;
    if q < p {
      p, q := q, p;
    }
  }

  /** Nor does a picture of ancestry have a repeated commit with an ancestor listed, */
  lemma RepeatHasNoAncestor(repo: Repo, s: Sorting, rows: seq<Row>, c: Oid, d: Oid)
    requires Valid(repo) && s.Valid(repo) && Repeated(s.listed, c) && d in s.listed
    requires |rows| == |s.commits| && LinesAreParentLinks(s.commits, rows) && DrawsAncestry(repo, s.commits, rows)
    ensures !Below(repo, c, d)
  {
    if Below(repo, c, d) {
      ListedHaveRows(s.listed, s.order, s.commits);
      var p, q := RepeatsHaveRows(s.listed, s.order, s.commits, c);
      var r := RowOf(s.commits, d);
      assert ConnectedDown(rows, p, r) && ConnectedDown(rows, q, r);
      ConnectedHasParents(s.commits, rows, p, r);
      ConnectedHasParents(s.commits, rows, q, r);
      OneHasNoParents(repo, s, p, q);
    }
  }

  /** or with a descendant. */
  lemma RepeatHasNoDescendant(repo: Repo, s: Sorting, rows: seq<Row>, c: Oid, d: Oid)
    requires Valid(repo) && s.Valid(repo) && Repeated(s.listed, c) && d in s.listed
    requires |rows| == |s.commits| && LinesAreParentLinks(s.commits, rows) && DrawsAncestry(repo, s.commits, rows)
    ensures !Below(repo, d, c)
  {
    if Below(repo, d, c) {
      RepeatedIsListed(s.listed, c);
      DescentLowersGeneration(repo, d, c);
      var i := NearestRow(repo, s, c, d);
      var p, q := RepeatsHaveRows(s.listed, s.order, s.commits, c);
      NearestHasOneRow(repo, s.commits, rows, i, p, q);
    }
  }

  /** The row of a commit that an edge leads from to `c`, on the way from `d`. */
  lemma NearestRow(repo: Repo, s: Sorting, c: Oid, d: Oid) returns (i: nat)
    requires Valid(repo) && s.Valid(repo) && c in s.shown && d in s.shown && Below(repo, d, c)
    ensures i < |s.commits| && Below(repo, s.commits[i].hash, c)
    ensures forall k :: 0 <= k < |s.commits| ==>
      !(Below(repo, s.commits[i].hash, s.commits[k].hash) && Below(repo, s.commits[k].hash, c))
  {
    ListedHaveRows(s.listed, s.order, s.commits);
    var x := LastBefore(repo, s.shown, s.edges, d, c);
    i := RowOf(s.commits, x);
    ShownBetween(repo, s.shown, s.commits, x, c);
  }

  /** The commit that an edge leads from to `c`, on the way from `d`. */
  lemma LastBefore(repo: Repo, shown: seq<Oid>, edges: Edges, d: Oid, c: Oid) returns (x: Oid)
    requires Valid(repo) && IsParentMap(repo, shown, edges) && d in shown && c in shown && Below(repo, d, c)
    ensures x in shown && Nearest(repo, shown, x, c)
  {
    var route := AncestorsReached(repo, shown, edges, d, c);
    x := route[|route| - 2];
    LinkIsNearest(repo, shown, edges, x, c);
  }

  lemma ShownBetween(repo: Repo, shown: seq<Oid>, commits: seq<CommitInfo>, x: Oid, c: Oid)
    requires Valid(repo) && Nearest(repo, shown, x, c)
    requires forall a: Oid :: a in repo && Lists(commits, a) ==> a in shown
    ensures forall k :: 0 <= k < |commits| ==> !(Below(repo, x, commits[k].hash) && Below(repo, commits[k].hash, c))
  {
    forall k | 0 <= k < |commits|
      ensures !(Below(repo, x, commits[k].hash) && Below(repo, commits[k].hash, c))
    {
      if Below(repo, x, commits[k].hash) && Below(repo, commits[k].hash, c) {
        DescentLowersGeneration(repo, commits[k].hash, c);
        assert Lists(commits, commits[k].hash);
      }
    }
  }

  /** A picture of the listed commits is that of their ancestry exactly when those listed more than
    * once stand alone.
    */
  lemma AncestryIfRepeatsStandAlone(repo: Repo, s: Sorting, rows: seq<Row>)
    requires Valid(repo) && s.Valid(repo) && |rows| == |s.commits| && LinesAreParentLinks(s.commits, rows)
    ensures DrawsAncestry(repo, s.commits, rows) <==> RepeatsStandAlone(repo, s.listed)
  {
    if DrawsAncestry(repo, s.commits, rows) {
      forall c, d | Repeated(s.listed, c) && d in s.listed
        ensures !Below(repo, c, d) && !Below(repo, d, c)
      {
        RepeatHasNoAncestor(repo, s, rows, c, d);
        RepeatHasNoDescendant(repo, s, rows, c, d);
      }
    }
    if RepeatsStandAlone(repo, s.listed) {
      PictureIsWholeAncestry(repo, s, rows);
    }
  }

  /** Such as when the tracked tip is the first commit too, and listed for both: a deployed commit on
    * top of it is joined to the first of its rows only.
    */
  lemma RepeatedTipIsNotJoined(repo: Repo, commits: seq<CommitInfo>, rows: seq<Row>, tip: Oid, deployed: Oid)
    requires Valid(repo) && |rows| == |commits| == 3 && LinesAreParentLinks(commits, rows)
    requires commits[0].hash == deployed && commits[1].hash == commits[2].hash == tip && Below(repo, deployed, tip)
    ensures !DrawsAncestry(repo, commits, rows)
  {
    NearestHasOneRow(repo, commits, rows, 0, 1, 2);
  }

  // ----- the pipeline -------------------------------------------------------------------------

  /** The listed commits that the repository has. */
  method Found(repo: Repo, listed: seq<Oid>) returns (shown: seq<Oid>)
    ensures forall c: Oid :: c in shown <==> c in listed && c in repo
  {
    shown := [];
    for i := 0 to |listed|
      invariant forall c: Oid :: c in shown <==> c in listed[..i] && c in repo
    {
      if listed[i] in repo {
        shown := shown + [listed[i]];
      }
    }
    assert listed[..|listed|] == listed;
  }

  /** Each commit takes its edges from the map, where a copy of it finds none. */
  method Describe(listed: seq<Oid>, edges: Edges) returns (infos: seq<CommitInfo>)
    ensures Describes(listed, edges, infos)
  {
    infos := [];
    var left := edges;
    for i := 0 to |listed|
      invariant |infos| == i && forall k :: 0 <= k < i ==> infos[k] == DescriptionAt(listed, edges, k)
      invariant forall c :: c in left <==> c in edges && c !in listed[..i]
      invariant forall c :: c in left ==> left[c] == edges[c]
    {
      var c := listed[i];
      if c !in edges {
        infos := infos + [Missing(c)];
      } else {
        infos := infos + [Complete(c, if c in left then left[c] else [])];
        left := left - {c};
      }
    }
  }

  /** Draw the timeline of the `listed` commits. Those the repository lacks stand alone. */
  method Timeline(repo: Repo, listed: seq<Oid>) returns (commits: seq<CommitInfo>, rows: seq<Row>)
    requires Valid(repo)
    ensures |rows| == |commits| && Rearranges(commits, listed)
    ensures DrawsAncestry(repo, commits, rows) <==> RepeatsStandAlone(repo, listed)
    ensures forall i: nat, j: nat :: ConnectedDown(rows, i, j) ==> i < j < |rows|
  {
    var shown := Found(repo, listed);
    var found := GraphParents.GraphParents(repo, shown);
    var edges := found.value;
    var infos := Describe(listed, edges);
    commits := TopoOrder.TopoOrder(infos);
    ghost var s := Sorted(repo, shown, listed, edges, infos, commits);
    rows := Layout(commits);
    AncestryIfRepeatsStandAlone(repo, s, rows);
    ConnectedGoesDown(rows);
  }

  /** The timeline of the deployed commits in their context. Its picture is that of their ancestry but
    * for one case: the tracked tip is the first commit too, is not deployed, and something listed is
    * its ancestor or descendant.
    */
  method DeployedTimeline(repo: Repo, deployed: seq<Oid>, tip: Oid, initial: Oid, bases: map<Oid, Oid>)
    returns (listed: seq<Oid>, commits: seq<CommitInfo>, rows: seq<Row>)
    requires Valid(repo) && Distinct(deployed)
    ensures |rows| == |commits| && Rearranges(commits, listed) && forall c :: c in deployed ==> c in listed
    ensures DrawsAncestry(repo, commits, rows) <==>
      (tip == initial && tip in repo && tip !in deployed ==>
         forall d :: d in listed ==> !Below(repo, d, tip) && !Below(repo, tip, d))
  {
    listed := Listing(repo, deployed, tip, initial, bases);
    commits, rows := Timeline(repo, listed);
    assert forall c :: Repeated(listed, c) ==> c == tip;
  }

  lemma Sorted(repo: Repo, shown: seq<Oid>, listed: seq<Oid>, edges: Edges, infos: seq<CommitInfo>,
      commits: seq<CommitInfo>)
    returns (s: Sorting)
    requires Valid(repo) && IsParentMap(repo, shown, edges) && Describes(listed, edges, infos)
    requires forall c :: c in shown <==> c in listed && c in repo
    requires exists index, order :: TopoOrder.Sorts(infos, commits, index, order)
    ensures s.Valid(repo) && s.listed == listed && s.commits == commits
  {
    var index, order :| TopoOrder.Sorts(infos, commits, index, order);
    NothingLeftOut(repo, shown, listed, edges, infos, index, order);
    SortedHashes(listed, edges, infos, index, order, commits);
    s := Sorting(shown, listed, edges, infos, index, order, commits);
  }

  lemma ConnectedGoesDown(rows: seq<Row>)
    ensures forall i: nat, j: nat :: ConnectedDown(rows, i, j) ==> i < j < |rows|
  {
    forall i: nat, j: nat | ConnectedDown(rows, i, j)
      ensures i < j < |rows|
    {
      var stops :| IsDescent(rows, stops, i, j);
      DescentGoesDown(rows, stops, i, j);
      StopsAreRows(rows, stops, i, j);
    }
  }
}
