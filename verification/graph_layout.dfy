/** The branching picture of the timeline: one commit a row, its edges kept in lanes. */
module GraphLayout {
  import opened Wrappers
  import opened CommitGraph
  import opened TimelineTypes

  datatype Y = Top | Middle | Bottom

  datatype Segment =
    | Vertical(lane: nat, from: Y, to: Y, elided: bool)
      /** Runs across the middle of the row, in the colour of `lane`. */
    | Horizontal(start: nat, end: nat, lane: nat, elided: bool)

  datatype Row = Row(column: nat, segments: seq<Segment>)
  {
    /** Number of lanes this row draws in. */
    function Width(): nat {
      Widest(segments, column) + 1
    }
  }

  function Widest(segments: seq<Segment>, atLeast: nat): (lane: nat)
    ensures lane >= atLeast
  {
    if segments == [] then atLeast
    else
      var here := match segments[0]
        case Vertical(l, _, _, _) => l
        case Horizontal(s, e, _, _) => if s > e then s else e;
      Widest(segments[1..], if here > atLeast then here else atLeast)
  }

  /** The segment touches the lane. */
  predicate Touches(segment: Segment, lane: nat) {
    match segment
    case Vertical(l, _, _, _) => lane == l
    case Horizontal(start, end, _, _) => lane == start || lane == end
  }

  /** The node or some segment touches the lane. */
  predicate DrawnIn(row: Row, lane: nat) {
    lane == row.column || exists s :: s in row.segments && Touches(s, lane)
  }

  lemma {:induction false} WidestIs(segments: seq<Segment>, atLeast: nat)
    ensures var lane := Widest(segments, atLeast);
      lane == atLeast || exists s :: s in segments && Touches(s, lane)
    ensures forall s, lane: nat :: s in segments && Touches(s, lane) ==> lane <= Widest(segments, atLeast)
    decreases |segments|
  {
    if segments != [] {
      var here := match segments[0]
        case Vertical(l, _, _, _) => l
        case Horizontal(s, e, _, _) => if s > e then s else e;
      assert Touches(segments[0], here);
      WidestIs(segments[1..], if here > atLeast then here else atLeast);
      assert forall s :: s in segments ==> s == segments[0] || s in segments[1..];
    }
  }

  /** The width is the least number above every lane drawn in. */
  lemma WidthIsLeast(row: Row, width: nat)
    ensures width == row.Width() <==>
      && (forall lane: nat :: DrawnIn(row, lane) ==> lane < width)
      && exists lane: nat :: DrawnIn(row, lane) && width == lane + 1
  {
    WidestIs(row.segments, row.column);
    assert DrawnIn(row, Widest(row.segments, row.column));
  }

  /** An edge travelling down a lane is the parent link it was opened for. */
  type Lanes = seq<Option<GraphParent>>

  // ----- reading a picture ---------------------------------------------------------------

  /** A line leaves the row's node downwards in `lane`: straight down, or across the row to
    * a lane that continues below.
    */
  ghost predicate Leaves(row: Row, lane: nat, elided: bool) {
    if lane == row.column then Vertical(lane, Middle, Bottom, elided) in row.segments
    else
      && Horizontal(row.column, lane, lane, elided) in row.segments
      && (Vertical(lane, Middle, Bottom, elided) in row.segments || Vertical(lane, Top, Bottom, elided) in row.segments)
  }

  ghost predicate Passes(row: Row, lane: nat, elided: bool) {
    Vertical(lane, Top, Bottom, elided) in row.segments
  }

  /** A line comes down `lane` from above and ends at the row's node. */
  ghost predicate Enters(row: Row, lane: nat, elided: bool) {
    && Vertical(lane, Top, Middle, elided) in row.segments
    && (lane != row.column ==> Horizontal(lane, row.column, lane, elided) in row.segments)
  }

  /** An unbroken line of one style runs in `lane` from the node of row `i` to that of row `j`. */
  ghost predicate Line(rows: seq<Row>, i: nat, j: nat, lane: nat, elided: bool) {
    && i < j < |rows|
    && Leaves(rows[i], lane, elided)
    && (forall k :: i < k < j ==> Passes(rows[k], lane, elided))
    && Enters(rows[j], lane, elided)
  }

  ghost predicate CoversTop(s: Segment) {
    s.Vertical? && s.from == Top
  }

  ghost predicate CoversBottom(s: Segment) {
    s.Vertical? && s.to == Bottom
  }

  /** No half of a lane is drawn by two vertical segments. */
  ghost predicate HalvesDrawnOnce(segments: seq<Segment>) {
    forall a, b :: 0 <= a < b < |segments| && segments[a].lane == segments[b].lane ==>
      && !(CoversTop(segments[a]) && CoversTop(segments[b]))
      && !(CoversBottom(segments[a]) && CoversBottom(segments[b]))
  }

  // ----- the lanes between rows ------------------------------------------------------------

  ghost predicate Carries(lanes: Lanes, lane: nat, edge: GraphParent) {
    lane < |lanes| && lanes[lane] == Some(edge)
  }

  /** The lane goes straight through the row of `hash`. */
  ghost predicate PassesBy(lanes: Lanes, lane: nat, hash: Oid) {
    lane < |lanes| && lanes[lane].Some? && lanes[lane].value.hash != hash
  }

  ghost predicate EdgesDistinct(lanes: Lanes) {
    forall a, b :: 0 <= a < b < |lanes| && lanes[a].Some? ==> lanes[a] != lanes[b]
  }

  ghost predicate Free(lanes: Lanes, lane: nat) {
    lane < |lanes| ==> lanes[lane].None?
  }

  /** The segments drawn above and through the node of `hash`. */
  ghost predicate AboveSegment(lanes: Lanes, hash: Oid, column: nat, s: Segment) {
    match s
    case Vertical(lane, from, to, elided) =>
      && lane < |lanes| && lanes[lane].Some? && lanes[lane].value.elided == elided
      && from == Top && to == (if lanes[lane].value.hash == hash then Middle else Bottom)
    case Horizontal(start, end, lane, elided) =>
      start == lane && end == column && lane != column && Carries(lanes, lane, GraphParent(hash, elided))
  }

  /** The segments drawn from the node down to the lanes of `parents`, where the lanes of
    * `through` pass by and `after` is what continues below.
    */
  ghost predicate BelowSegment(through: Lanes, parents: seq<GraphParent>, after: Lanes, column: nat, s: Segment) {
    match s
    case Vertical(lane, from, to, elided) =>
      && lane < |after| && after[lane].Some? && after[lane].value.elided == elided && Free(through, lane)
      && from == Middle && to == Bottom
    case Horizontal(start, end, lane, elided) =>
      && start == column && end == lane && lane != column
      && lane < |after| && after[lane].Some? && after[lane].value.elided == elided && after[lane].value in parents
  }

  /** Every edge that goes on below the row passed it by or is one of `parents`, all of which do. */
  ghost predicate Continues(through: Lanes, parents: seq<GraphParent>, after: Lanes) {
    && EdgesDistinct(after)
    && (forall lane, e :: Carries(through, lane, e) ==> Carries(after, lane, e))
    && (forall lane, e :: Carries(after, lane, e) ==> Carries(through, lane, e) || e in parents)
    && (forall e :: e in parents ==> exists lane :: Carries(after, lane, e))
  }

  ghost predicate IsIncoming(lanes: Lanes, lane: nat, hash: Oid) {
    lane < |lanes| && lanes[lane].Some? && lanes[lane].value.hash == hash
  }

  /** The lanes left once those ending at `hash` are cleared. */
  function Through(lanes: Lanes, hash: Oid): Lanes {
    seq(|lanes|, l requires 0 <= l < |lanes| =>
      if lanes[l].Some? && lanes[l].value.hash == hash then None else lanes[l])
  }

  ghost function Live(lanes: Lanes): set<nat> {
    set lane: nat | lane < |lanes| && lanes[lane].Some?
  }

  ghost function Elements(s: seq<nat>): set<nat> {
    set l | l in s
  }

  function Max(a: nat, b: nat): nat {
    if a > b then a else b
  }

  /** The lanes a commit may need: one for each edge live above it and, below, for each parent. */
  ghost function Demand(before: Lanes, commit: CommitInfo): nat {
    |Live(before)| + Max(1, |commit.Parents()|)
  }

  /** The node sits in the first lane that ends here, or else in the first free one. */
  ghost predicate NodeLane(before: Lanes, hash: Oid, column: nat) {
    if exists lane: nat :: IsIncoming(before, lane, hash)
    then IsIncoming(before, column, hash) && forall lane: nat :: lane < column ==> !IsIncoming(before, lane, hash)
    else Free(before, column) && forall lane: nat :: lane < column ==> !Free(before, lane)
  }

  /** A lane ending here continues only as the node's own, and only for the first parent;
    * and the first parent goes on in the node's lane unless another lane carries it already.
    */
  ghost predicate FirstParentStraightDown(before: Lanes, commit: CommitInfo, column: nat, after: Lanes) {
    && (forall lane, e :: IsIncoming(before, lane, commit.hash) && Carries(after, lane, e) ==>
          lane == column && commit.Parents() != [] && e == commit.Parents()[0])
    && (commit.Parents() != [] ==>
          || Carries(after, column, commit.Parents()[0])
          || exists lane :: Carries(Through(before, commit.hash), lane, commit.Parents()[0]))
  }

  /** What `row` draws, and the lanes it leaves, for a commit met with the lanes `before`. */
  ghost predicate RowDraws(before: Lanes, commit: CommitInfo, row: Row, after: Lanes) {
    var through := Through(before, commit.hash);
    && NodeLane(before, commit.hash, row.column)
    && (forall s :: s in row.segments <==>
          || AboveSegment(before, commit.hash, row.column, s)
          || BelowSegment(through, commit.Parents(), after, row.column, s))
    && HalvesDrawnOnce(row.segments)
    && Continues(through, commit.Parents(), after)
    && FirstParentStraightDown(before, commit, row.column, after)
    && row.column < Max(|before|, Demand(before, commit))
    && |after| <= Max(|before|, Demand(before, commit))
  }

  // ----- the algorithm -----------------------------------------------------------------------

  method FreeLane(lanes: Lanes, avoid: seq<nat>) returns (lanes': Lanes, lane: nat)
    requires forall a :: a in avoid ==> a < |lanes|
    ensures if lane < |lanes| then lanes' == lanes else lane == |lanes| && lanes' == lanes + [None]
    ensures lanes'[lane].None? && lane !in avoid
    ensures forall l :: 0 <= l < lane ==> lanes[l].Some? || l in avoid
  {
    lane := 0;
    while lane < |lanes| && (lanes[lane].Some? || lane in avoid)
      invariant lane <= |lanes|
      invariant forall l :: 0 <= l < lane ==> lanes[l].Some? || l in avoid
    {
      lane := lane + 1;
    }
    lanes' := if lane < |lanes| then lanes else lanes + [None];
  }

  method Incoming(lanes: Lanes, hash: Oid) returns (incoming: seq<nat>)
    ensures forall lane: nat :: lane in incoming <==> IsIncoming(lanes, lane, hash)
    ensures forall lane: nat :: incoming != [] && lane < incoming[0] ==> !IsIncoming(lanes, lane, hash)
  {
    incoming := [];
    for lane := 0 to |lanes|
      invariant forall l: nat :: l in incoming <==> l < lane && IsIncoming(lanes, l, hash)
      invariant forall l: nat :: incoming != [] && l < incoming[0] ==> !IsIncoming(lanes, l, hash)
    {
      if lanes[lane].Some? && lanes[lane].value.hash == hash {
        incoming := incoming + [lane];
      }
    }
  }

  method DrawAbove(lanes: Lanes, hash: Oid, column: nat) returns (segments: seq<Segment>)
    ensures forall s :: s in segments <==> AboveSegment(lanes, hash, column, s)
    ensures HalvesDrawnOnce(segments)
  {
    segments := [];
    for lane := 0 to |lanes|
      invariant forall s :: s in segments <==> s.lane < lane && AboveSegment(lanes, hash, column, s)
      invariant forall a :: 0 <= a < |segments| ==> segments[a] in segments
      invariant HalvesDrawnOnce(segments)
    {
      if lanes[lane].Some? {
        var elided := lanes[lane].value.elided;
        if lanes[lane].value.hash != hash {
          segments := segments + [Vertical(lane, Top, Bottom, elided)];
        } else {
          segments := segments + [Vertical(lane, Top, Middle, elided)];
          if lane != column {
            segments := segments + [Horizontal(lane, column, lane, elided)];
          }
        }
      }
    }
  }

  method ClearLanes(lanes: Lanes, incoming: seq<nat>, ghost hash: Oid) returns (lanes': Lanes)
    requires forall lane: nat :: lane in incoming <==> IsIncoming(lanes, lane, hash)
    ensures lanes' == Through(lanes, hash)
  {
    lanes' := lanes;
    for k := 0 to |incoming|
      invariant |lanes'| == |lanes|
      invariant forall l :: 0 <= l < |lanes| ==> lanes'[l] == if l in incoming[..k] then None else lanes[l]
    {
      assert incoming[k] in incoming;
      lanes' := lanes'[incoming[k] := None];
    }
    assert incoming[..|incoming|] == incoming;
  }

  method Trim(lanes: Lanes) returns (lanes': Lanes)
    ensures lanes' <= lanes && (lanes' == [] || lanes'[|lanes'| - 1].Some?)
    ensures forall lane, e :: Carries(lanes', lane, e) <==> Carries(lanes, lane, e)
  {
    lanes' := lanes;
    while |lanes'| > 0 && lanes'[|lanes'| - 1].None?
      invariant lanes' <= lanes
      invariant forall lane, e :: Carries(lanes', lane, e) <==> Carries(lanes, lane, e)
    {
      lanes' := lanes'[..|lanes'| - 1];
    }
  }

  /** The first lane already carrying `edge`. */
  method FindEdge(lanes: Lanes, edge: GraphParent) returns (found: Option<nat>)
    ensures found.Some? ==>
      Carries(lanes, found.value, edge) && forall lane :: Carries(lanes, lane, edge) ==> found.value <= lane
    ensures found.None? ==> forall lane :: !Carries(lanes, lane, edge)
  {
    for lane := 0 to |lanes|
      invariant forall l: nat :: l < lane ==> !Carries(lanes, l, edge)
    {
      if lanes[lane] == Some(edge) {
        return Some(lane);
      }
    }
    return None;
  }

  /** How far the lines to `parents` have been drawn after the first `n` of them. */
  ghost predicate Drawn(through: Lanes, parents: seq<GraphParent>, n: nat, now: Lanes, column: nat,
      below: seq<Segment>, incoming: seq<nat>)
    requires n <= |parents|
  {
    && column < |now| && Free(through, column)
    && Continues(through, parents[..n], now)
    && (forall s :: s in below <==> BelowSegment(through, parents[..n], now, column, s))
    && HalvesDrawnOnce(below)
    && (n == 0 ==> now == through)
    && (forall lane, e :: lane in incoming && Carries(now, lane, e) ==> lane == column && n > 0 && e == parents[0])
    && (n > 0 ==> Carries(now, column, parents[0]) || exists lane :: Carries(through, lane, parents[0]))
  }

  /** Lanes are only added when all but those to avoid are in use. */
  ghost predicate Frugal(through: Lanes, n: nat, now: Lanes, incoming: seq<nat>) {
    && |through| <= |now|
    && |Live(now)| <= |Live(through)| + n
    && |now| <= Max(|through|, |Live(through)| + |Elements(incoming)| + n)
  }

  /** A parent whose edge some lane carries joins that lane. */
  lemma JoinLane(through: Lanes, parents: seq<GraphParent>, n: nat, now: Lanes, column: nat,
      below: seq<Segment>, incoming: seq<nat>, lane: nat)
    requires n < |parents| && Drawn(through, parents, n, now, column, below, incoming)
    requires Carries(now, lane, parents[n])
    ensures var p := parents[n];
      Drawn(through, parents, n + 1, now, column,
        if lane != column then below + [Horizontal(column, lane, lane, p.elided)] else below, incoming)
  {
    var p := parents[n];
    assert parents[..n + 1] == parents[..n] + [p];
    var below' := if lane != column then below + [Horizontal(column, lane, lane, p.elided)] else below;
    forall s
      ensures s in below' <==> BelowSegment(through, parents[..n + 1], now, column, s)
    {
      if s.Horizontal? && s.lane < |now| && now[s.lane] == Some(p) {
        assert s.lane == lane;
      }
    }
  }

  /** Otherwise a free lane is opened for it. */
  lemma OpenLane(through: Lanes, parents: seq<GraphParent>, n: nat, now: Lanes, column: nat,
      below: seq<Segment>, incoming: seq<nat>, lane: nat, wider: Lanes)
    requires n < |parents| && Drawn(through, parents, n, now, column, below, incoming)
    requires forall l :: !Carries(now, l, parents[n])
    requires wider == now || wider == now + [None]
    requires lane < |wider| && wider[lane].None?
    requires if n == 0 then lane == column else lane !in incoming
    ensures var p := parents[n];
      var below' := below + [Vertical(lane, Middle, Bottom, p.elided)];
      Drawn(through, parents, n + 1, wider[lane := Some(p)], column,
        if lane != column then below' + [Horizontal(column, lane, lane, p.elided)] else below', incoming)
  {
    var p := parents[n];
    var now' := wider[lane := Some(p)];
    assert parents[..n + 1] == parents[..n] + [p];
    assert forall l, e :: Carries(now', l, e) <==> Carries(now, l, e) || (l == lane && e == p);
    assert lane < |through| && through[lane].Some? ==> Carries(now, lane, through[lane].value) by {
      assert forall e :: Carries(through, lane, e) ==> Carries(now, lane, e);
    }
    assert Free(now, lane) && Free(through, lane);
    OpenedEdges(through, parents[..n], now, p, lane, now');
    forall a | 0 <= a < |below| && below[a].Vertical?
      ensures below[a].lane != lane
    {
      assert below[a] in below;
    }
    OpenedSegments(through, parents, n, now, column, lane, now');
  }

  lemma OpenedEdges(through: Lanes, parents: seq<GraphParent>, now: Lanes, p: GraphParent, lane: nat, now': Lanes)
    requires Continues(through, parents, now)
    requires forall l, e :: Carries(now', l, e) <==> Carries(now, l, e) || (l == lane && e == p)
    requires Free(now, lane) && forall l :: !Carries(now, l, p)
    ensures Continues(through, parents + [p], now')
  {
    forall a, b | 0 <= a < b < |now'| && now'[a].Some?
      ensures now'[a] != now'[b]
    {
      if now'[b].Some? {
        assert Carries(now', a, now'[a].value) && Carries(now', b, now'[b].value);
      }
    }
    forall e | e in parents + [p]
      ensures exists l :: Carries(now', l, e)
    {
      if e in parents {
        var l :| Carries(now, l, e);
        assert Carries(now', l, e);
      } else {
        assert Carries(now', lane, p);
      }
    }
  }

  lemma OpenedSegments(through: Lanes, parents: seq<GraphParent>, n: nat, now: Lanes, column: nat, lane: nat,
      now': Lanes)
    requires n < |parents| && lane < |now'| && now'[lane] == Some(parents[n])
    requires Free(now, lane) && Free(through, lane)
    requires forall l, e :: Carries(now', l, e) <==> Carries(now, l, e) || (l == lane && e == parents[n])
    requires forall l :: !Carries(now, l, parents[n])
    ensures forall s :: BelowSegment(through, parents[..n + 1], now', column, s) <==>
      || BelowSegment(through, parents[..n], now, column, s)
      || s == Vertical(lane, Middle, Bottom, parents[n].elided)
      || (lane != column && s == Horizontal(column, lane, lane, parents[n].elided))
  {
    assert parents[..n + 1] == parents[..n] + [parents[n]];
    forall s
      ensures BelowSegment(through, parents[..n + 1], now', column, s) <==>
        || BelowSegment(through, parents[..n], now, column, s)
        || s == Vertical(lane, Middle, Bottom, parents[n].elided)
        || (lane != column && s == Horizontal(column, lane, lane, parents[n].elided))
    {
      if s.lane != lane {
        if s.lane < |now'| && now'[s.lane].Some? {
          assert Carries(now', s.lane, now'[s.lane].value);
          assert Carries(now, s.lane, now'[s.lane].value);
        }
        if s.lane < |now| && now[s.lane].Some? {
          assert Carries(now, s.lane, now[s.lane].value);
          assert Carries(now', s.lane, now[s.lane].value);
        }
      }
    }
  }

  lemma {:induction false} SubsetSize(a: set<nat>, b: set<nat>)
    requires a <= b
    ensures |a| <= |b|
  {
    if a != {} {
      var x :| x in a;
      SubsetSize(a - {x}, b - {x});
    }
  }

  ghost function Indices(n: nat): (s: set<nat>)
    ensures |s| == n
    ensures forall x: nat :: x in s <==> x < n
  {
    if n == 0 then {} else Indices(n - 1) + {n - 1}
  }

  /** Lanes that are all live or avoided number no more than those. */
  lemma CrowdedLanes(lanes: Lanes, avoid: set<nat>)
    requires forall l :: 0 <= l < |lanes| ==> lanes[l].Some? || l in avoid
    ensures |lanes| <= |Live(lanes)| + |avoid|
  {
    SubsetSize(Indices(|lanes|), Live(lanes) + avoid);
    assert |Live(lanes) + avoid| == |Live(lanes)| + |avoid| - |Live(lanes) * avoid|;
  }

  lemma OpeningIsFrugal(through: Lanes, n: nat, now: Lanes, incoming: seq<nat>, lane: nat, wider: Lanes, p: GraphParent)
    requires Frugal(through, n, now, incoming)
    requires lane < |wider| && wider[lane].None?
    requires wider == now
      || (wider == now + [None] && forall l :: 0 <= l < |now| ==> now[l].Some? || l in incoming)
    ensures Frugal(through, n + 1, wider[lane := Some(p)], incoming)
  {
    var now' := wider[lane := Some(p)];
    assert Live(now') == Live(now) + {lane};
    if wider != now {
      CrowdedLanes(now, Elements(incoming));
    }
  }

  /** Draw the lines from the node at `column` to the lanes of `parents`, opening lanes that
    * are not there yet. `lanes` pass by the node.
    */
  method DrawBelow(lanes: Lanes, parents: seq<GraphParent>, column: nat, incoming: seq<nat>)
      returns (after: Lanes, below: seq<Segment>)
    requires column < |lanes| && lanes[column].None? && EdgesDistinct(lanes)
    requires forall a :: a in incoming ==> a < |lanes| && lanes[a].None?
    ensures Drawn(lanes, parents, |parents|, after, column, below, incoming)
    ensures Frugal(lanes, |parents|, after, incoming)
  {
    after, below := lanes, [];
    for n := 0 to |parents|
      invariant Drawn(lanes, parents, n, after, column, below, incoming)
      invariant Frugal(lanes, n, after, incoming)
    {
      var p := parents[n];
      var shared := FindEdge(after, p);
      var lane;
      match shared {
        case Some(found) =>
          lane := found;
          JoinLane(lanes, parents, n, after, column, below, incoming, lane);
        case None =>
          var wider := after;
          if n == 0 {
            lane := column;
          } else {
            wider, lane := FreeLane(after, incoming);
          }
          OpenLane(lanes, parents, n, after, column, below, incoming, lane, wider);
          OpeningIsFrugal(lanes, n, after, incoming, lane, wider, p);
          after := wider[lane := Some(p)];
          below := below + [Vertical(lane, Middle, Bottom, p.elided)];
      }
      if lane != column {
        below := below + [Horizontal(column, lane, lane, p.elided)];
      }
    }
  }

  /** One row: the node's lane, the lines above and through it, then those down to its parents. */
  method DrawRow(lanes: Lanes, commit: CommitInfo) returns (row: Row, after: Lanes)
    requires EdgesDistinct(lanes)
    ensures RowDraws(lanes, commit, row, after)
  {
    var hash := commit.hash;
    var incoming := Incoming(lanes, hash);
    var wider, column := lanes, 0;
    if incoming != [] {
      column := incoming[0];
      assert column in incoming;
    } else {
      wider, column := FreeLane(lanes, []);
      if wider != lanes {
        CrowdedLanes(lanes, {});
      }
    }
    var above := DrawAbove(wider, hash, column);
    var through := ClearLanes(wider, incoming, hash);
    var drawn, below := DrawBelow(through, commit.Parents(), column, incoming);
    after := Trim(drawn);
    row := Row(column, above + below);
    RowIsDrawn(lanes, commit, incoming, wider, column, above, drawn, below, after);
  }

  /** The same edges, whatever free lanes trail after them. */
  ghost predicate SameEdges(a: Lanes, b: Lanes) {
    forall lane, e :: Carries(a, lane, e) <==> Carries(b, lane, e)
  }

  lemma SegmentsIgnoreFreeLanes(lanes: Lanes, lanes': Lanes, through: Lanes, through': Lanes, after: Lanes,
      after': Lanes, hash: Oid, parents: seq<GraphParent>, column: nat, s: Segment)
    requires SameEdges(lanes, lanes') && SameEdges(through, through') && SameEdges(after, after')
    ensures AboveSegment(lanes, hash, column, s) <==> AboveSegment(lanes', hash, column, s)
    ensures BelowSegment(through, parents, after, column, s) <==> BelowSegment(through', parents, after', column, s)
  {
    var lane := s.lane;
    forall a: Lanes, b: Lanes | SameEdges(a, b)
      ensures lane < |a| && a[lane].Some? ==> lane < |b| && b[lane] == a[lane]
      ensures lane < |b| && b[lane].Some? ==> lane < |a| && b[lane] == a[lane]
    {
      if lane < |a| && a[lane].Some? {
        assert Carries(a, lane, a[lane].value);
      }
      if lane < |b| && b[lane].Some? {
        assert Carries(b, lane, b[lane].value);
      }
    }
  }

  lemma ContinuesIgnoresFreeLanes(through: Lanes, through': Lanes, parents: seq<GraphParent>, after: Lanes,
      after': Lanes)
    requires Continues(through, parents, after) && SameEdges(through, through') && SameEdges(after, after')
    ensures Continues(through', parents, after')
  {
    forall a, b | 0 <= a < b < |after'| && after'[a].Some?
      ensures after'[a] != after'[b]
    {
      if after'[b].Some? {
        assert Carries(after', a, after'[a].value) && Carries(after', b, after'[b].value);
        assert Carries(after, a, after'[a].value) && Carries(after, b, after'[b].value);
      }
    }
    forall e | e in parents
      ensures exists lane :: Carries(after', lane, e)
    {
      var lane :| Carries(after, lane, e);
      assert Carries(after', lane, e);
    }
  }

  /** Above and below never draw the same half: lanes opened below do not pass by. */
  lemma HalvesOfTheRow(lanes: Lanes, hash: Oid, column: nat, parents: seq<GraphParent>, after: Lanes,
      above: seq<Segment>, below: seq<Segment>)
    requires forall s :: s in above ==> AboveSegment(lanes, hash, column, s)
    requires forall s :: s in below ==> BelowSegment(Through(lanes, hash), parents, after, column, s)
    requires HalvesDrawnOnce(above) && HalvesDrawnOnce(below)
    ensures HalvesDrawnOnce(above + below)
  {
    var segments := above + below;
    forall a, b | 0 <= a < |above| && 0 <= b < |below| && above[a].lane == below[b].lane
      ensures !(CoversTop(above[a]) && CoversTop(below[b]))
      ensures !(CoversBottom(above[a]) && CoversBottom(below[b]))
    {
      assert above[a] in above && below[b] in below;
    }
  }

  lemma RowIsDrawn(lanes: Lanes, commit: CommitInfo, incoming: seq<nat>, wider: Lanes, column: nat,
      above: seq<Segment>, drawn: Lanes, below: seq<Segment>, after: Lanes)
    requires forall lane: nat :: lane in incoming <==> IsIncoming(lanes, lane, commit.hash)
    requires NodeLane(lanes, commit.hash, column)
    requires wider == lanes || (wider == lanes + [None] && |lanes| <= |Live(lanes)|)
    requires column < |wider|
    requires forall s :: s in above <==> AboveSegment(wider, commit.hash, column, s)
    requires HalvesDrawnOnce(above)
    requires Drawn(Through(wider, commit.hash), commit.Parents(), |commit.Parents()|, drawn, column, below, incoming)
    requires Frugal(Through(wider, commit.hash), |commit.Parents()|, drawn, incoming)
    requires after <= drawn && SameEdges(after, drawn)
    ensures RowDraws(lanes, commit, Row(column, above + below), after)
  {
    var hash, parents := commit.hash, commit.Parents();
    var through, through' := Through(lanes, hash), Through(wider, hash);
    assert parents[..|parents|] == parents;
    HalvesOfTheRow(wider, hash, column, parents, drawn, above, below);
    ContinuesIgnoresFreeLanes(through', through, parents, drawn, after);
    forall s
      ensures s in above + below <==>
        AboveSegment(lanes, hash, column, s) || BelowSegment(through, parents, after, column, s)
    {
      SegmentsIgnoreFreeLanes(wider, lanes, through', through, drawn, after, hash, parents, column, s);
    }
    FirstParentOfTheRow(lanes, commit, incoming, column, through', drawn, after);
    LiveLanesSplit(lanes, hash, wider, incoming);
  }

  lemma FirstParentOfTheRow(lanes: Lanes, commit: CommitInfo, incoming: seq<nat>, column: nat, through': Lanes,
      drawn: Lanes, after: Lanes)
    requires forall lane: nat :: lane in incoming <==> IsIncoming(lanes, lane, commit.hash)
    requires SameEdges(after, drawn) && SameEdges(Through(lanes, commit.hash), through')
    requires var ps := commit.Parents();
      && (forall lane, e :: lane in incoming && Carries(drawn, lane, e) ==> lane == column && ps != [] && e == ps[0])
      && (ps != [] ==> Carries(drawn, column, ps[0]) || exists lane :: Carries(through', lane, ps[0]))
    ensures FirstParentStraightDown(lanes, commit, column, after)
  {
    var ps := commit.Parents();
    if ps != [] && !Carries(after, column, ps[0]) {
      var lane :| Carries(through', lane, ps[0]);
      assert Carries(Through(lanes, commit.hash), lane, ps[0]);
    }
  }

  /** A live lane either ends here or passes by. */
  lemma LiveLanesSplit(lanes: Lanes, hash: Oid, wider: Lanes, incoming: seq<nat>)
    requires forall lane: nat :: lane in incoming <==> IsIncoming(lanes, lane, hash)
    requires wider == lanes || wider == lanes + [None]
    ensures |Live(lanes)| == |Live(Through(wider, hash))| + |Elements(incoming)|
  {
    var through' := Through(wider, hash);
    assert Live(lanes) == Live(through') + Elements(incoming);
    assert Live(through') !! Elements(incoming);
  }

  // ----- the whole picture ---------------------------------------------------------------------

  /** The rows are drawn one after the other, `lanes[r]` being what comes down to row `r`. */
  ghost predicate IsLayout(commits: seq<CommitInfo>, rows: seq<Row>, lanes: seq<Lanes>) {
    && |rows| == |commits| && |lanes| == |rows| + 1 && lanes[0] == []
    && forall r :: 0 <= r < |rows| ==> RowDraws(lanes[r], commits[r], rows[r], lanes[r + 1])
  }

  /** A line joins two rows exactly when the lower is a parent of the upper in that style, and
    * no row between has the lower's hash.
    */
  ghost predicate LinesAreParentLinks(commits: seq<CommitInfo>, rows: seq<Row>)
    requires |rows| == |commits|
  {
    forall i, j, elided :: 0 <= i < j < |rows| ==>
      ((exists lane: nat :: Line(rows, i, j, lane, elided))
       <==> && GraphParent(commits[j].hash, elided) in commits[i].Parents()
            && forall k :: i < k < j ==> commits[k].hash != commits[j].hash)
  }

  /** Whatever ends at a node comes in a whole line from the node of a row above. */
  ghost predicate LinesHaveStarts(rows: seq<Row>) {
    forall j, lane: nat, elided :: 0 <= j < |rows| && Vertical(lane, Top, Middle, elided) in rows[j].segments ==>
      exists i: nat :: Line(rows, i, j, lane, elided)
  }

  ghost predicate DrawsTopHalf(row: Row, lane: nat, elided: bool) {
    Passes(row, lane, elided) || Vertical(lane, Top, Middle, elided) in row.segments
  }

  ghost predicate DrawsBottomHalf(row: Row, lane: nat, elided: bool) {
    Passes(row, lane, elided) || Vertical(lane, Middle, Bottom, elided) in row.segments
  }

  /** What leaves a row at the bottom is what enters the next at the top. */
  ghost predicate RowsMeet(rows: seq<Row>) {
    && (|rows| > 0 ==> forall lane: nat, elided :: !DrawsTopHalf(rows[0], lane, elided))
    && forall r, lane: nat, elided :: 0 < r < |rows| ==>
      (DrawsBottomHalf(rows[r - 1], lane, elided) <==> DrawsTopHalf(rows[r], lane, elided))
  }

  /** The lanes drawn at the top of a row. */
  ghost function TopLanes(row: Row): set<nat> {
    set s | s in row.segments && CoversTop(s) :: s.lane
  }

  /** The most any row up to `r` asks for: its lines from above, and one lane more for each
    * parent (or for the node).
    */
  ghost function PeakDemand(commits: seq<CommitInfo>, rows: seq<Row>, r: nat): nat
    requires r < |rows| == |commits|
  {
    var here := |TopLanes(rows[r])| + Max(1, |commits[r].Parents()|);
    if r == 0 then here else Max(PeakDemand(commits, rows, r - 1), here)
  }

  ghost predicate EndsHere(row: Row, lane: nat) {
    exists elided :: Vertical(lane, Top, Middle, elided) in row.segments
  }

  /** The node takes the first lane that ends at it, or else the first nothing comes down. Its
    * first parent continues straight down unless a passing lane leads there already, and no
    * other lane that ended here turns back down.
    */
  ghost predicate NodePlaced(commit: CommitInfo, row: Row) {
    && (if exists lane: nat :: EndsHere(row, lane)
        then EndsHere(row, row.column) && forall lane: nat :: lane < row.column ==> !EndsHere(row, lane)
        else row.column !in TopLanes(row) && forall lane: nat :: lane < row.column ==> lane in TopLanes(row))
    && (commit.Parents() != [] ==>
          var elided := commit.Parents()[0].elided;
          || Leaves(row, row.column, elided)
          || exists lane: nat :: Passes(row, lane, elided) && Leaves(row, lane, elided))
    && forall lane: nat, elided ::
         EndsHere(row, lane) && Vertical(lane, Middle, Bottom, elided) in row.segments ==>
           lane == row.column && commit.Parents() != [] && elided == commit.Parents()[0].elided
  }

  /** Assign every commit a lane and draw the lines to the rows above and below. */
  method Layout(commits: seq<CommitInfo>) returns (rows: seq<Row>)
    ensures |rows| == |commits|
    ensures LinesAreParentLinks(commits, rows)
    ensures LinesHaveStarts(rows)
    ensures RowsMeet(rows)
    ensures forall r :: 0 <= r < |rows| ==> HalvesDrawnOnce(rows[r].segments) && NodePlaced(commits[r], rows[r])
    ensures forall r :: 0 <= r < |rows| ==> rows[r].Width() <= PeakDemand(commits, rows, r)
  {
    rows := [];
    var lanes: Lanes := [];
    ghost var history: seq<Lanes> := [lanes];
    for r := 0 to |commits|
      invariant |rows| == r && |history| == r + 1 && history[r] == lanes && history[0] == []
      invariant EdgesDistinct(lanes)
      invariant forall k :: 0 <= k < r ==> RowDraws(history[k], commits[k], rows[k], history[k + 1])
      invariant forall k :: 0 <= k < r ==> HalvesDrawnOnce(rows[k].segments) && NodePlaced(commits[k], rows[k])
    {
      var row;
      row, lanes := DrawRow(lanes, commits[r]);
      DrawnNode(history[r], commits[r], row, lanes);
      rows := rows + [row];
      history := history + [lanes];
    }
    DrawnLines(commits, rows, history);
    DrawnStarts(commits, rows, history);
    DrawnRowsMeet(commits, rows, history);
    DrawnWidths(commits, rows, history);
  }

  // ----- why the picture is right ----------------------------------------------------------------

  lemma EdgeLeaves(before: Lanes, commit: CommitInfo, row: Row, after: Lanes, lane: nat, e: GraphParent)
    requires RowDraws(before, commit, row, after) && Carries(after, lane, e) && e in commit.Parents()
    ensures Leaves(row, lane, e.elided)
  {
    var through := Through(before, commit.hash);
    if lane == row.column {
      assert Free(through, lane);
      assert BelowSegment(through, commit.Parents(), after, lane, Vertical(lane, Middle, Bottom, e.elided));
    } else {
      assert BelowSegment(through, commit.Parents(), after, row.column, Horizontal(row.column, lane, lane, e.elided));
      if Free(through, lane) {
        assert BelowSegment(through, commit.Parents(), after, row.column, Vertical(lane, Middle, Bottom, e.elided));
      } else {
        assert Carries(through, lane, through[lane].value);
        assert Carries(after, lane, through[lane].value);
        assert AboveSegment(before, commit.hash, row.column, Vertical(lane, Top, Bottom, e.elided));
      }
    }
  }

  lemma LeavingIsParent(before: Lanes, commit: CommitInfo, row: Row, after: Lanes, lane: nat, elided: bool)
    returns (e: GraphParent)
    requires RowDraws(before, commit, row, after) && Leaves(row, lane, elided)
    ensures Carries(after, lane, e) && e in commit.Parents() && e.elided == elided
  {
    var through := Through(before, commit.hash);
    if lane == row.column {
      assert !AboveSegment(before, commit.hash, row.column, Vertical(lane, Middle, Bottom, elided));
      e := after[lane].value;
      assert Carries(after, lane, e) && !Carries(through, lane, e);
    } else {
      assert !AboveSegment(before, commit.hash, row.column, Horizontal(row.column, lane, lane, elided));
      e := after[lane].value;
    }
  }

  lemma PassingEdge(before: Lanes, commit: CommitInfo, row: Row, after: Lanes, lane: nat, elided: bool)
    requires RowDraws(before, commit, row, after)
    ensures Passes(row, lane, elided) <==> PassesBy(before, lane, commit.hash) && before[lane].value.elided == elided
    ensures PassesBy(before, lane, commit.hash) ==> Carries(after, lane, before[lane].value)
  {
    var through := Through(before, commit.hash);
    var s := Vertical(lane, Top, Bottom, elided);
    assert !BelowSegment(through, commit.Parents(), after, row.column, s);
    assert AboveSegment(before, commit.hash, row.column, s) <==> Passes(row, lane, elided);
    if PassesBy(before, lane, commit.hash) {
      assert Carries(through, lane, before[lane].value);
    }
  }

  lemma EndingEdge(before: Lanes, commit: CommitInfo, row: Row, after: Lanes, lane: nat, elided: bool)
    requires RowDraws(before, commit, row, after)
    ensures Enters(row, lane, elided) <==> Carries(before, lane, GraphParent(commit.hash, elided))
    ensures Vertical(lane, Top, Middle, elided) in row.segments <==>
      Carries(before, lane, GraphParent(commit.hash, elided))
  {
    var through := Through(before, commit.hash);
    var s, h := Vertical(lane, Top, Middle, elided), Horizontal(lane, row.column, lane, elided);
    assert AboveSegment(before, commit.hash, row.column, s) <==> s in row.segments;
    if Carries(before, lane, GraphParent(commit.hash, elided)) && lane != row.column {
      assert AboveSegment(before, commit.hash, row.column, h);
    }
  }

  /** An edge keeps its lane until the row of its target. */
  lemma {:induction false} EdgeRunsDown(commits: seq<CommitInfo>, rows: seq<Row>, lanes: seq<Lanes>,
      i: nat, k: nat, lane: nat, e: GraphParent)
    requires IsLayout(commits, rows, lanes) && i < k <= |rows| && Carries(lanes[i + 1], lane, e)
    requires forall m :: i < m < k ==> commits[m].hash != e.hash
    ensures Carries(lanes[k], lane, e)
    ensures forall m :: i < m < k ==> Passes(rows[m], lane, e.elided)
    decreases k
  {
    if k > i + 1 {
      EdgeRunsDown(commits, rows, lanes, i, k - 1, lane, e);
      PassingEdge(lanes[k - 1], commits[k - 1], rows[k - 1], lanes[k], lane, e.elided);
    }
  }

  lemma ParentLinkIsDrawn(commits: seq<CommitInfo>, rows: seq<Row>, lanes: seq<Lanes>, i: nat, j: nat, elided: bool)
    returns (lane: nat)
    requires IsLayout(commits, rows, lanes) && i < j < |rows|
    requires GraphParent(commits[j].hash, elided) in commits[i].Parents()
    requires forall k :: i < k < j ==> commits[k].hash != commits[j].hash
    ensures Line(rows, i, j, lane, elided)
  {
    var e := GraphParent(commits[j].hash, elided);
    lane :| Carries(lanes[i + 1], lane, e);
    EdgeLeaves(lanes[i], commits[i], rows[i], lanes[i + 1], lane, e);
    EdgeRunsDown(commits, rows, lanes, i, j, lane, e);
    EndingEdge(lanes[j], commits[j], rows[j], lanes[j + 1], lane, elided);
  }

  /** Following a line down leads to the target of the edge it leaves with. */
  lemma {:induction false} LineRunsDown(commits: seq<CommitInfo>, rows: seq<Row>, lanes: seq<Lanes>,
      i: nat, k: nat, lane: nat, e: GraphParent)
    requires IsLayout(commits, rows, lanes) && i < k <= |rows| && Carries(lanes[i + 1], lane, e)
    requires forall m :: i < m < k ==> Passes(rows[m], lane, e.elided)
    ensures Carries(lanes[k], lane, e)
    ensures forall m :: i < m < k ==> commits[m].hash != e.hash
    decreases k
  {
    if k > i + 1 {
      LineRunsDown(commits, rows, lanes, i, k - 1, lane, e);
      PassingEdge(lanes[k - 1], commits[k - 1], rows[k - 1], lanes[k], lane, e.elided);
    }
  }

  lemma LineIsParentLink(commits: seq<CommitInfo>, rows: seq<Row>, lanes: seq<Lanes>, i: nat, j: nat, lane: nat,
      elided: bool)
    requires IsLayout(commits, rows, lanes) && Line(rows, i, j, lane, elided)
    ensures GraphParent(commits[j].hash, elided) in commits[i].Parents()
    ensures forall k :: i < k < j ==> commits[k].hash != commits[j].hash
  {
    var e := LeavingIsParent(lanes[i], commits[i], rows[i], lanes[i + 1], lane, elided);
    LineRunsDown(commits, rows, lanes, i, j, lane, e);
    EndingEdge(lanes[j], commits[j], rows[j], lanes[j + 1], lane, elided);
  }

  lemma DrawnLines(commits: seq<CommitInfo>, rows: seq<Row>, lanes: seq<Lanes>)
    requires IsLayout(commits, rows, lanes)
    ensures LinesAreParentLinks(commits, rows)
  {
    forall i, j, elided | 0 <= i < j < |rows|
      ensures (exists lane: nat :: Line(rows, i, j, lane, elided))
        <==> && GraphParent(commits[j].hash, elided) in commits[i].Parents()
             && forall k :: i < k < j ==> commits[k].hash != commits[j].hash
    {
      if lane: nat :| Line(rows, i, j, lane, elided) {
        LineIsParentLink(commits, rows, lanes, i, j, lane, elided);
      } else if && GraphParent(commits[j].hash, elided) in commits[i].Parents()
                && forall k :: i < k < j ==> commits[k].hash != commits[j].hash {
        var lane := ParentLinkIsDrawn(commits, rows, lanes, i, j, elided);
      }
    }
  }

  /** A carried edge was opened, or joined, by a row above and has not met its target since. */
  lemma {:induction false} EdgeHasStart(commits: seq<CommitInfo>, rows: seq<Row>, lanes: seq<Lanes>,
      k: nat, lane: nat, e: GraphParent) returns (i: nat)
    requires IsLayout(commits, rows, lanes) && k <= |rows| && Carries(lanes[k], lane, e)
    ensures i < k && e in commits[i].Parents() && Carries(lanes[i + 1], lane, e)
    ensures forall m :: i < m < k ==> commits[m].hash != e.hash
    decreases k
  {
    assert RowDraws(lanes[k - 1], commits[k - 1], rows[k - 1], lanes[k]);
    if e in commits[k - 1].Parents() {
      i := k - 1;
    } else {
      i := EdgeHasStart(commits, rows, lanes, k - 1, lane, e);
    }
  }

  lemma DrawnStarts(commits: seq<CommitInfo>, rows: seq<Row>, lanes: seq<Lanes>)
    requires IsLayout(commits, rows, lanes)
    ensures LinesHaveStarts(rows)
  {
    forall j, lane: nat, elided | 0 <= j < |rows| && Vertical(lane, Top, Middle, elided) in rows[j].segments
      ensures exists i: nat :: Line(rows, i, j, lane, elided)
    {
      var e := GraphParent(commits[j].hash, elided);
      EndingEdge(lanes[j], commits[j], rows[j], lanes[j + 1], lane, elided);
      var i := EdgeHasStart(commits, rows, lanes, j, lane, e);
      EdgeLeaves(lanes[i], commits[i], rows[i], lanes[i + 1], lane, e);
      EdgeRunsDown(commits, rows, lanes, i, j, lane, e);
      assert Line(rows, i, j, lane, elided);
    }
  }

  ghost predicate CarriesStyle(lanes: Lanes, lane: nat, elided: bool) {
    lane < |lanes| && lanes[lane].Some? && lanes[lane].value.elided == elided
  }

  lemma HalvesOfARow(before: Lanes, commit: CommitInfo, row: Row, after: Lanes, lane: nat, elided: bool)
    requires RowDraws(before, commit, row, after)
    ensures DrawsTopHalf(row, lane, elided) <==> CarriesStyle(before, lane, elided)
    ensures DrawsBottomHalf(row, lane, elided) <==> CarriesStyle(after, lane, elided)
  {
    var through := Through(before, commit.hash);
    PassingEdge(before, commit, row, after, lane, elided);
    EndingEdge(before, commit, row, after, lane, elided);
    var s := Vertical(lane, Middle, Bottom, elided);
    assert !AboveSegment(before, commit.hash, row.column, s);
    assert s in row.segments <==> BelowSegment(through, commit.Parents(), after, row.column, s);
  }

  lemma DrawnRowsMeet(commits: seq<CommitInfo>, rows: seq<Row>, lanes: seq<Lanes>)
    requires IsLayout(commits, rows, lanes)
    ensures RowsMeet(rows)
  {
    forall r, lane: nat, elided | 0 <= r < |rows|
      ensures DrawsTopHalf(rows[r], lane, elided) <==> CarriesStyle(lanes[r], lane, elided)
      ensures DrawsBottomHalf(rows[r], lane, elided) <==> CarriesStyle(lanes[r + 1], lane, elided)
    {
      HalvesOfARow(lanes[r], commits[r], rows[r], lanes[r + 1], lane, elided);
    }
  }

  lemma {:induction false} WidestWithin(segments: seq<Segment>, atLeast: nat, bound: nat)
    requires atLeast < bound
    requires forall s :: s in segments ==> s.lane < bound && (s.Horizontal? ==> s.start < bound && s.end < bound)
    ensures Widest(segments, atLeast) < bound
  {
    if segments != [] {
      assert segments[0] in segments;
      var here := match segments[0]
        case Vertical(l, _, _, _) => l
        case Horizontal(s, e, _, _) => if s > e then s else e;
      WidestWithin(segments[1..], if here > atLeast then here else atLeast, bound);
    }
  }

  lemma RowWidth(before: Lanes, commit: CommitInfo, row: Row, after: Lanes)
    requires RowDraws(before, commit, row, after)
    ensures row.Width() <= Max(|before|, Demand(before, commit)) && |after| <= Max(|before|, Demand(before, commit))
    ensures |TopLanes(row)| == |Live(before)|
  {
    WidestWithin(row.segments, row.column, Max(|before|, Demand(before, commit)));
    forall lane: nat
      ensures lane in TopLanes(row) <==> lane in Live(before)
    {
      if lane in Live(before) {
        var to := if before[lane].value.hash == commit.hash then Middle else Bottom;
        var s := Vertical(lane, Top, to, before[lane].value.elided);
        assert AboveSegment(before, commit.hash, row.column, s);
      }
    }
    assert TopLanes(row) == Live(before);
  }

  lemma {:induction false} DrawnWidth(commits: seq<CommitInfo>, rows: seq<Row>, lanes: seq<Lanes>, r: nat)
    requires IsLayout(commits, rows, lanes) && r < |rows|
    ensures rows[r].Width() <= PeakDemand(commits, rows, r)
    ensures |lanes[r + 1]| <= PeakDemand(commits, rows, r)
  {
    if r > 0 {
      DrawnWidth(commits, rows, lanes, r - 1);
    }
    var before, after := lanes[r], lanes[r + 1];
    RowWidth(before, commits[r], rows[r], after);
  }

  lemma DrawnWidths(commits: seq<CommitInfo>, rows: seq<Row>, lanes: seq<Lanes>)
    requires IsLayout(commits, rows, lanes)
    ensures forall r :: 0 <= r < |rows| ==> rows[r].Width() <= PeakDemand(commits, rows, r)
  {
    forall r | 0 <= r < |rows| {
      DrawnWidth(commits, rows, lanes, r);
    }
  }

  lemma DrawnTop(before: Lanes, commit: CommitInfo, row: Row, after: Lanes, lane: nat)
    requires RowDraws(before, commit, row, after)
    ensures EndsHere(row, lane) <==> IsIncoming(before, lane, commit.hash)
    ensures lane in TopLanes(row) <==> !Free(before, lane)
  {
    HalvesOfARow(before, commit, row, after, lane, true);
    HalvesOfARow(before, commit, row, after, lane, false);
    EndingEdge(before, commit, row, after, lane, true);
    EndingEdge(before, commit, row, after, lane, false);
    if lane in TopLanes(row) {
      var s :| s in row.segments && CoversTop(s) && s.lane == lane;
      assert AboveSegment(before, commit.hash, row.column, s);
    }
  }

  lemma DrawnNode(before: Lanes, commit: CommitInfo, row: Row, after: Lanes)
    requires RowDraws(before, commit, row, after)
    ensures NodePlaced(commit, row)
  {
    forall lane: nat {
      DrawnTop(before, commit, row, after, lane);
    }
    if commit.Parents() != [] {
      FirstParentDrawn(before, commit, row, after);
    }
    forall lane: nat, elided | EndsHere(row, lane) && Vertical(lane, Middle, Bottom, elided) in row.segments
      ensures lane == row.column && commit.Parents() != [] && elided == commit.Parents()[0].elided
    {
      assert !AboveSegment(before, commit.hash, row.column, Vertical(lane, Middle, Bottom, elided));
      assert Carries(after, lane, after[lane].value);
    }
  }

  lemma FirstParentDrawn(before: Lanes, commit: CommitInfo, row: Row, after: Lanes)
    requires RowDraws(before, commit, row, after) && commit.Parents() != []
    ensures var elided := commit.Parents()[0].elided;
      || Leaves(row, row.column, elided)
      || exists lane: nat :: Passes(row, lane, elided) && Leaves(row, lane, elided)
  {
    var p := commit.Parents()[0];
    if Carries(after, row.column, p) {
      EdgeLeaves(before, commit, row, after, row.column, p);
    } else {
      var lane :| Carries(Through(before, commit.hash), lane, p);
      EdgeLeaves(before, commit, row, after, lane, p);
      PassingEdge(before, commit, row, after, lane, p.elided);
    }
  }
}
