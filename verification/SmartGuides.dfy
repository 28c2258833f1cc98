/**
 Smart-guide snapping of a dragged box: edge and centre alignment, then equal spacing.

 The two axes run the same code with the coordinates exchanged, so the searches are written once
 over an axis. Coordinates are reals: rounding is not modelled. The specification lists every
 candidate position in the order the loops meet them; the result is the first nearest of the list.
 */
module SmartGuides {
  import opened Basics

  datatype Rect = Rect(x0: real, y0: real, x1: real, y1: real)

  datatype Axis = X | Y

  const EQUAL_SPACING_SNAP_RADIUS: real := 800.0
  const MAX_SPACING_CANDIDATES: nat := 50

  function Lo(axis: Axis, r: Rect): real { if axis.X? then r.x0 else r.y0 }
  function Hi(axis: Axis, r: Rect): real { if axis.X? then r.x1 else r.y1 }
  function Mid(axis: Axis, r: Rect): real { (Lo(axis, r) + Hi(axis, r)) / 2.0 }
  function Size(axis: Axis, r: Rect): real { Hi(axis, r) - Lo(axis, r) }
  function Cross(axis: Axis): Axis { if axis.X? then Y else X }

  function Abs(x: real): (r: real)
    ensures r >= 0.0 && (r == x || r == -x)
  {
    if x < 0.0 then -x else x
  }

  function Min(a: real, b: real): real { if a < b then a else b }
  function Max(a: real, b: real): real { if a < b then b else a }

  predicate ZeroArea(r: Rect) { Size(X, r) == 0.0 || Size(Y, r) == 0.0 }

  datatype GuideKind = Alignment | EqualSpacing

  /** A guide line perpendicular (alignment) or parallel (spacing) to `axis`, with the tick marks on it. */
  datatype Guide = Guide(axis: Axis, kind: GuideKind, position: real, start: real, end: real, ticks: seq<real>)

  function SpacingGuide(axis: Axis, position: real, start: real, end: real): Guide {
    Guide(axis, EqualSpacing, position, start, end, [])
  }

  // ---------------------------------------------------------------- the candidates

  function Anchors(axis: Axis, r: Rect): seq<real> { [Lo(axis, r), Hi(axis, r), Mid(axis, r)] }

  /** The positions that put the anchor `mine` of the dragged box on a line with an anchor of the other. */
  function AlignmentRow(axis: Axis, dragged: Rect, other: Rect, mine: real): seq<real> {
    [Lo(axis, dragged) + (Lo(axis, other) - mine),
     Lo(axis, dragged) + (Hi(axis, other) - mine),
     Lo(axis, dragged) + (Mid(axis, other) - mine)]
  }

  function Alignments(axis: Axis, dragged: Rect, other: Rect): seq<real> {
    AlignmentRow(axis, dragged, other, Lo(axis, dragged)) + AlignmentRow(axis, dragged, other, Hi(axis, dragged))
    + AlignmentRow(axis, dragged, other, Mid(axis, dragged))
  }

  function AllAlignments(axis: Axis, dragged: Rect, others: seq<Rect>): seq<real> {
    if others == [] then []
    else
      var n := |others| - 1;
      AllAlignments(axis, dragged, others[..n]) + Alignments(axis, dragged, others[n])
  }

  /** Two boxes an equal-spacing placement can refer to, the gap between them not too wide. */
  predicate Eligible(axis: Axis, left: Rect, right: Rect) {
    Hi(axis, left) < Lo(axis, right) && Lo(axis, right) - Hi(axis, left) <= EQUAL_SPACING_SNAP_RADIUS
  }

  /** A position for the dragged box and the two guides that show its spacing. */
  datatype Placement = Placement(target: real, spacing: real, other: Rect, first: Guide, second: Guide)

  function Between(axis: Axis, dragged: Rect, left: Rect, right: Rect): Placement {
    var spacing := (Lo(axis, right) - Hi(axis, left) - Size(axis, dragged)) / 2.0;
    var target := Hi(axis, left) + spacing;
    var across := Mid(Cross(axis), dragged);
    Placement(target, spacing, left,
              SpacingGuide(axis, across, Hi(axis, left), target),
              SpacingGuide(axis, across, target + Size(axis, dragged), Lo(axis, right)))
  }

  function Beyond(axis: Axis, dragged: Rect, left: Rect, right: Rect): Placement {
    var gap := Lo(axis, right) - Hi(axis, left);
    Placement(Hi(axis, right) + gap, gap, right,
              SpacingGuide(axis, Mid(Cross(axis), left), Hi(axis, left), Lo(axis, right)),
              SpacingGuide(axis, Mid(Cross(axis), dragged), Hi(axis, right), Hi(axis, right) + gap))
  }

  function Ahead(axis: Axis, dragged: Rect, left: Rect, right: Rect): Placement {
    var gap := Lo(axis, right) - Hi(axis, left);
    var target := Lo(axis, left) - gap - Size(axis, dragged);
    Placement(target, gap, left,
              SpacingGuide(axis, Mid(Cross(axis), dragged), target + Size(axis, dragged), Lo(axis, left)),
              SpacingGuide(axis, Mid(Cross(axis), right), Hi(axis, left), Lo(axis, right)))
  }

  /** Between the two when the box fits, beyond the right one, before the left one. */
  function Placements(axis: Axis, dragged: Rect, left: Rect, right: Rect): seq<Placement> {
    var outer := [Beyond(axis, dragged, left, right), Ahead(axis, dragged, left, right)];
    if !Eligible(axis, left, right) then []
    else if Lo(axis, right) - Hi(axis, left) > Size(axis, dragged) then [Between(axis, dragged, left, right)] + outer
    else outer
  }

  /** The placements of the pairs `(i, j)`, `(i, j + 1)`, ... */
  function RowFrom(axis: Axis, dragged: Rect, sorted: seq<Rect>, i: nat, j: nat): seq<Placement>
    requires i < |sorted|
    decreases |sorted| - j
  {
    if j >= |sorted| then []
    else Placements(axis, dragged, sorted[i], sorted[j]) + RowFrom(axis, dragged, sorted, i, j + 1)
  }

  /** The placements of all pairs `a < b` with `i <= a`. */
  function PlacementsFrom(axis: Axis, dragged: Rect, sorted: seq<Rect>, i: nat): seq<Placement>
    decreases |sorted| - i
  {
    if i >= |sorted| then []
    else RowFrom(axis, dragged, sorted, i, i + 1) + PlacementsFrom(axis, dragged, sorted, i + 1)
  }

  function Targets(ps: seq<Placement>): seq<real> {
    seq(|ps|, k requires 0 <= k < |ps| => ps[k].target)
  }

  /** The standard library's stable sort by the lower coordinate. */
  function InsertByLo(axis: Axis, r: Rect, sorted: seq<Rect>): seq<Rect> {
    if sorted == [] || Lo(axis, r) <= Lo(axis, sorted[0]) then [r] + sorted
    else [sorted[0]] + InsertByLo(axis, r, sorted[1..])
  }

  function SortByLo(axis: Axis, rects: seq<Rect>): seq<Rect> {
    if rects == [] then [] else InsertByLo(axis, rects[0], SortByLo(axis, rects[1..]))
  }

  /** Real shapes, not mere snap points. */
  function Shapes(others: seq<Rect>): seq<Rect> {
    if others == [] then []
    else if ZeroArea(others[0]) then Shapes(others[1..]) else [others[0]] + Shapes(others[1..])
  }

  predicate Overlaps(axis: Axis, dragged: Rect, r: Rect) {
    Lo(Cross(axis), r) < Hi(Cross(axis), dragged) && Hi(Cross(axis), r) > Lo(Cross(axis), dragged)
  }

  /** The shapes that overlap the dragged box across the axis. */
  function Overlapping(axis: Axis, dragged: Rect, shapes: seq<Rect>): seq<Rect> {
    if shapes == [] then []
    else if Overlaps(axis, dragged, shapes[0]) then [shapes[0]] + Overlapping(axis, dragged, shapes[1..])
    else Overlapping(axis, dragged, shapes[1..])
  }

  /** The boxes considered for equal spacing; none when there are too many shapes. */
  function SpacingPool(axis: Axis, dragged: Rect, others: seq<Rect>): seq<Rect> {
    if |Shapes(others)| <= MAX_SPACING_CANDIDATES then SortByLo(axis, Overlapping(axis, dragged, Shapes(others)))
    else []
  }

  function AllPlacements(axis: Axis, dragged: Rect, others: seq<Rect>): seq<Placement> {
    PlacementsFrom(axis, dragged, SpacingPool(axis, dragged, others), 0)
  }

  /** Every candidate position along the axis, in search order. */
  function Candidates(axis: Axis, dragged: Rect, others: seq<Rect>): seq<real> {
    AllAlignments(axis, dragged, others) + Targets(AllPlacements(axis, dragged, others))
  }

  function Edge(axis: Axis, r: Rect, n: nat): real {
    if n == 0 then Lo(axis, r) else if n == 1 then Hi(axis, r) else (Lo(axis, r) + Hi(axis, r)) / 2.0
  }

  /**
   The order that decides between equally near alignments: box by box, then the dragged box's lower edge,
   upper edge and centre, each against the other box's lower edge, upper edge and centre.
   */
  lemma {:induction false} AlignmentsInOrder(axis: Axis, dragged: Rect, others: seq<Rect>, n: nat, a: nat, b: nat)
    requires n < |others| && a < 3 && b < 3
    ensures |AllAlignments(axis, dragged, others)| == 9 * |others|
    ensures AllAlignments(axis, dragged, others)[9 * n + 3 * a + b]
            == Lo(axis, dragged) + (Edge(axis, others[n], b) - Edge(axis, dragged, a))
  {
    var last := |others| - 1;
    AlignmentsCount(axis, dragged, others[..last]);
    if n < last {
      AlignmentsInOrder(axis, dragged, others[..last], n, a, b);
    } else {
      OneInOrder(axis, dragged, others[last], a, b);
    }
  }

  lemma {:induction false} AlignmentsCount(axis: Axis, dragged: Rect, others: seq<Rect>)
    ensures |AllAlignments(axis, dragged, others)| == 9 * |others|
  {
    if others != [] {
      AlignmentsCount(axis, dragged, others[..|others| - 1]);
    }
  }

  lemma OneInOrder(axis: Axis, dragged: Rect, other: Rect, a: nat, b: nat)
    requires a < 3 && b < 3
    ensures Alignments(axis, dragged, other)[3 * a + b]
            == Lo(axis, dragged) + (Edge(axis, other, b) - Edge(axis, dragged, a))
  {
  }

  /** And between the placements of one pair: between the two, beyond the upper, before the lower. */
  lemma PlacementsInOrder(axis: Axis, dragged: Rect, left: Rect, right: Rect)
    requires Eligible(axis, left, right)
    ensures var gap, size := Lo(axis, right) - Hi(axis, left), Hi(axis, dragged) - Lo(axis, dragged);
            Targets(Placements(axis, dragged, left, right))
            == (if gap > size then [Hi(axis, left) + (gap - size) / 2.0] else [])
               + [Hi(axis, right) + gap, Lo(axis, left) - gap - size]
  {
  }

  // ---------------------------------------------------------------- the nearest candidate

  /** `k` is the first nearest of `list` to `at`, strictly within the threshold. */
  ghost predicate FirstNearest(list: seq<real>, at: real, threshold: real, k: nat) {
    && k < |list| && Abs(at - list[k]) < threshold
    && (forall i :: 0 <= i < k ==> Abs(at - list[k]) < Abs(at - list[i]))
    && (forall i :: k <= i < |list| ==> Abs(at - list[k]) <= Abs(at - list[i]))
  }

  ghost predicate NoneNear(list: seq<real>, at: real, threshold: real) {
    forall i :: 0 <= i < |list| ==> threshold <= Abs(at - list[i])
  }

  datatype Best = Best(snap: real, guide: real, other: Rect)

  /** The running best after the candidates `seen`. */
  ghost predicate Tracks(seen: seq<real>, at: real, threshold: real, bestDist: real, best: Option<Best>) {
    match best
    case None => bestDist == threshold && NoneNear(seen, at, threshold)
    case Some(b) =>
      bestDist == Abs(at - b.snap) && exists k: nat :: FirstNearest(seen, at, threshold, k) && seen[k] == b.snap
  }

  lemma TrackNearer(seen: seq<real>, at: real, threshold: real, bestDist: real, best: Option<Best>, b: Best)
    requires Tracks(seen, at, threshold, bestDist, best) && Abs(at - b.snap) < bestDist
    ensures Tracks(seen + [b.snap], at, threshold, Abs(at - b.snap), Some(b))
  {
    if best.Some? {
      var k: nat :| FirstNearest(seen, at, threshold, k) && seen[k] == best.value.snap;
      assert forall i :: 0 <= i < |seen| ==> Abs(at - seen[k]) <= Abs(at - seen[i]);
    }
    assert (seen + [b.snap])[|seen|] == b.snap;
  }

  lemma TrackFarther(seen: seq<real>, at: real, threshold: real, bestDist: real, best: Option<Best>, x: real)
    requires Tracks(seen, at, threshold, bestDist, best) && bestDist <= Abs(at - x)
    ensures Tracks(seen + [x], at, threshold, bestDist, best)
  {
    if best.Some? {
      var k: nat :| FirstNearest(seen, at, threshold, k) && seen[k] == best.value.snap;
      assert (seen + [x])[k] == best.value.snap;
    }
  }

  /** Snapping puts an edge or the centre of the box on the guide. */
  predicate OnBox(axis: Axis, dragged: Rect, b: Best) {
    b.guide == b.snap || b.guide == b.snap + Size(axis, dragged) || b.guide == b.snap + Size(axis, dragged) / 2.0
  }

  /** The best snap is on its guide, and the other box it names is one of those given. */
  predicate MeetsGuide(axis: Axis, dragged: Rect, among: seq<Rect>, best: Option<Best>) {
    best.Some? ==> OnBox(axis, dragged, best.value) && best.value.other in among
  }

  /** What the search does with each candidate. */
  method Consider(b: Best, dist: real, bestDist: real, best: Option<Best>, ghost seen: seq<real>, ghost at: real,
                  ghost threshold: real)
    returns (bestDist': real, best': Option<Best>)
    requires Tracks(seen, at, threshold, bestDist, best) && dist == Abs(at - b.snap)
    ensures Tracks(seen + [b.snap], at, threshold, bestDist', best')
    ensures best' == if dist < bestDist then Some(b) else best
    ensures bestDist' == if dist < bestDist then dist else bestDist
  {
    if dist < bestDist {
      TrackNearer(seen, at, threshold, bestDist, best, b);
      return dist, Some(b);
    }
    TrackFarther(seen, at, threshold, bestDist, best, b.snap);
    return bestDist, best;
  }

  // ---------------------------------------------------------------- alignment

  /** The pairings of one anchor of the dragged box. */
  method TryAnchor(axis: Axis, dragged: Rect, other: Rect, mine: real, bestDist: real, best: Option<Best>,
                   ghost seen: seq<real>, ghost threshold: real, ghost among: seq<Rect>)
    returns (bestDist': real, best': Option<Best>)
    requires Tracks(seen, Lo(axis, dragged), threshold, bestDist, best)
    requires other in among && mine in Anchors(axis, dragged) && MeetsGuide(axis, dragged, among, best)
    ensures MeetsGuide(axis, dragged, among, best')
    ensures Tracks(seen + AlignmentRow(axis, dragged, other, mine), Lo(axis, dragged), threshold, bestDist', best')
  {
    bestDist', best' := bestDist, best;
    var theirs := Anchors(axis, other);
    ghost var row := AlignmentRow(axis, dragged, other, mine);
    assert seen + row[..0] == seen;
    for b := 0 to 3
      invariant Tracks(seen + row[..b], Lo(axis, dragged), threshold, bestDist', best')
      invariant MeetsGuide(axis, dragged, among, best')
    {
      var candidate := Best(Lo(axis, dragged) + (theirs[b] - mine), theirs[b], other);
      assert row[b] == candidate.snap && OnBox(axis, dragged, candidate);
      assert seen + row[..b] + [row[b]] == seen + row[..b + 1];
      bestDist', best' := Consider(candidate, Abs(mine - theirs[b]), bestDist', best',
                                   seen + row[..b], Lo(axis, dragged), threshold);
    }
    assert row[..3] == row;
  }

  /** The nine pairings with one other box. */
  method TryAlignments(axis: Axis, dragged: Rect, other: Rect, bestDist: real, best: Option<Best>,
                       ghost seen: seq<real>, ghost threshold: real, ghost among: seq<Rect>)
    returns (bestDist': real, best': Option<Best>)
    requires Tracks(seen, Lo(axis, dragged), threshold, bestDist, best)
    requires other in among && MeetsGuide(axis, dragged, among, best)
    ensures MeetsGuide(axis, dragged, among, best')
    ensures Tracks(seen + Alignments(axis, dragged, other), Lo(axis, dragged), threshold, bestDist', best')
  {
    bestDist', best' := bestDist, best;
    var mine := Anchors(axis, dragged);
    ghost var all := Alignments(axis, dragged, other);
    assert seen + all[..0] == seen;
    for a := 0 to 3
      invariant Tracks(seen + all[..3 * a], Lo(axis, dragged), threshold, bestDist', best')
      invariant MeetsGuide(axis, dragged, among, best')
    {
      assert all[3 * a..3 * a + 3] == AlignmentRow(axis, dragged, other, mine[a]);
      assert seen + all[..3 * a] + all[3 * a..3 * a + 3] == seen + all[..3 * a + 3];
      bestDist', best' := TryAnchor(axis, dragged, other, mine[a], bestDist', best', seen + all[..3 * a], threshold,
                                   among);
    }
    assert all[..9] == all;
  }

  // ---------------------------------------------------------------- equal spacing

  /** An interval of the axis. */
  datatype Extent = Extent(lo: real, hi: real)

  function ExtentOf(axis: Axis, r: Rect): Extent { Extent(Lo(axis, r), Hi(axis, r)) }

  function Length(g: Guide): real { g.end - g.start }

  /** Three intervals in a row with the same positive gap between neighbours. */
  predicate EvenRow(a: Extent, b: Extent, c: Extent) {
    b.lo - a.hi == c.lo - b.hi > 0.0
  }

  /** The two guides are exactly the two gaps of the row. */
  predicate MarksGaps(first: Guide, second: Guide, a: Extent, b: Extent, c: Extent) {
    first.start == a.hi && first.end == b.lo && second.start == b.hi && second.end == c.lo
  }

  /**
   The box makes an even row with two others, and the guides mark its gaps: at the box's centre across
   where the box borders on the gap, else at the centre of the outer one of the other two.
   */
  predicate ShowsEvenRow(axis: Axis, box: Rect, left: Rect, right: Rect, first: Guide, second: Guide) {
    var b, l, r := ExtentOf(axis, box), ExtentOf(axis, left), ExtentOf(axis, right);
    || (EvenRow(l, b, r) && MarksGaps(first, second, l, b, r) && StandAt(axis, first, second, box, box))
    || (EvenRow(l, r, b) && MarksGaps(first, second, l, r, b) && StandAt(axis, first, second, left, box))
    || (EvenRow(b, l, r) && MarksGaps(first, second, b, l, r) && StandAt(axis, first, second, box, right))
  }

  /** Spacing guides at the centres across of the two boxes. */
  predicate StandAt(axis: Axis, first: Guide, second: Guide, p: Rect, q: Rect) {
    && first == SpacingGuide(axis, (Lo(Cross(axis), p) + Hi(Cross(axis), p)) / 2.0, first.start, first.end)
    && second == SpacingGuide(axis, (Lo(Cross(axis), q) + Hi(Cross(axis), q)) / 2.0, second.start, second.end)
  }

  predicate MakesEvenRow(placed: Extent, left: Extent, right: Extent) {
    EvenRow(left, placed, right) || EvenRow(left, right, placed) || EvenRow(placed, left, right)
  }

  function Placed(axis: Axis, dragged: Rect, at: real): Extent { Extent(at, at + Size(axis, dragged)) }

  /** The spacing placement that wins so far and the pair it came from. */
  datatype Winner = Winner(placement: Placement, i: nat, j: nat)

  ghost predicate Sound(axis: Axis, dragged: Rect, sorted: seq<Rect>, w: Winner) {
    && w.i < w.j < |sorted| && Eligible(axis, sorted[w.i], sorted[w.j])
    && w.placement.spacing == Length(w.placement.first)
    && (w.placement.other == sorted[w.i] || w.placement.other == sorted[w.j])
    && ShowsEvenRow(axis, MovedTo(axis, dragged, w.placement.target), sorted[w.i], sorted[w.j],
                    w.placement.first, w.placement.second)
  }

  /** What is tracked at some point: the best so far and how far away it is. */
  datatype Standing = Standing(dist: real, best: Option<Best>)

  /** The winner is what is being tracked, strictly nearer than what was tracked at first; without one that stays. */
  ghost predicate Winning(axis: Axis, dragged: Rect, sorted: seq<Rect>, won: Option<Winner>, now: Standing,
                          initial: Standing) {
    match won
    case None => now == initial
    case Some(w) =>
      && Sound(axis, dragged, sorted, w) && now.dist < initial.dist
      && now.best.Some? && now.best.value.snap == w.placement.target
      && now.best.value.guide == w.placement.target + Size(axis, dragged) / 2.0
      && now.best.value.other == w.placement.other
  }

  /** The targets of a pair are exactly the positions that make an even row with it. */
  lemma PlacementsMakeRows(axis: Axis, dragged: Rect, left: Rect, right: Rect, at: real)
    ensures at in Targets(Placements(axis, dragged, left, right))
            <==> Eligible(axis, left, right)
                 && MakesEvenRow(Placed(axis, dragged, at), ExtentOf(axis, left), ExtentOf(axis, right))
  {
    var ps := Placements(axis, dragged, left, right);
    var targets := Targets(ps);
    var between := Between(axis, dragged, left, right).target;
    var beyond, ahead := Beyond(axis, dragged, left, right).target, Ahead(axis, dragged, left, right).target;
    if Eligible(axis, left, right) {
      if Lo(axis, right) - Hi(axis, left) > Size(axis, dragged) {
        assert targets == [between, beyond, ahead];
      } else {
        assert targets == [beyond, ahead];
      }
    }
  }

  method TryPlacement(axis: Axis, dragged: Rect, sorted: seq<Rect>, w: Winner, bestDist: real, best: Option<Best>,
                      won: Option<Winner>, ghost seen: seq<real>, ghost threshold: real, ghost initial: Standing)
    returns (bestDist': real, best': Option<Best>, won': Option<Winner>)
    requires Tracks(seen, Lo(axis, dragged), threshold, bestDist, best)
    requires Winning(axis, dragged, sorted, won, Standing(bestDist, best), initial)
    requires Sound(axis, dragged, sorted, w)
    ensures Tracks(seen + [w.placement.target], Lo(axis, dragged), threshold, bestDist', best')
    ensures Winning(axis, dragged, sorted, won', Standing(bestDist', best'), initial)
  {
    var b := Best(w.placement.target, w.placement.target + Size(axis, dragged) / 2.0, w.placement.other);
    var dist := Abs(Lo(axis, dragged) - w.placement.target);
    won' := if dist < bestDist then Some(w) else won;
    bestDist', best' := Consider(b, dist, bestDist, best, seen, Lo(axis, dragged), threshold);
  }

  /** The two or three placements of one eligible pair. */
  method TryPair(axis: Axis, dragged: Rect, sorted: seq<Rect>, i: nat, j: nat,
                 bestDist: real, best: Option<Best>, won: Option<Winner>,
                 ghost seen: seq<real>, ghost threshold: real, ghost initial: Standing)
    returns (bestDist': real, best': Option<Best>, won': Option<Winner>)
    requires i < j < |sorted|
    requires Tracks(seen, Lo(axis, dragged), threshold, bestDist, best)
    requires Winning(axis, dragged, sorted, won, Standing(bestDist, best), initial)
    ensures Tracks(seen + Targets(Placements(axis, dragged, sorted[i], sorted[j])), Lo(axis, dragged), threshold,
                   bestDist', best')
    ensures Winning(axis, dragged, sorted, won', Standing(bestDist', best'), initial)
  {
    var left, right := sorted[i], sorted[j];
    bestDist', best', won' := bestDist, best, won;
    ghost var targets := Targets(Placements(axis, dragged, left, right));
    if Hi(axis, left) >= Lo(axis, right) {
      assert seen + targets == seen;
      return;
    }
    var gap := Lo(axis, right) - Hi(axis, left);
    if gap > EQUAL_SPACING_SNAP_RADIUS {
      assert seen + targets == seen;
      return;
    }
    ghost var seen' := seen;
    if gap > Size(axis, dragged) {
      var between := Winner(Between(axis, dragged, left, right), i, j);
      bestDist', best', won' := TryPlacement(axis, dragged, sorted, between, bestDist', best', won', seen', threshold,
                                             initial);
      seen' := seen' + [between.placement.target];
      assert seen' == seen + targets[..|targets| - 2];
    }
    bestDist', best', won' := TryOuter(axis, dragged, sorted, i, j, bestDist', best', won', seen', threshold, initial);
    assert seen' + [Beyond(axis, dragged, left, right).target, Ahead(axis, dragged, left, right).target]
           == seen + targets;
  }

  method TryOuter(axis: Axis, dragged: Rect, sorted: seq<Rect>, i: nat, j: nat,
                  bestDist: real, best: Option<Best>, won: Option<Winner>,
                  ghost seen: seq<real>, ghost threshold: real, ghost initial: Standing)
    returns (bestDist': real, best': Option<Best>, won': Option<Winner>)
    requires i < j < |sorted| && Eligible(axis, sorted[i], sorted[j])
    requires Tracks(seen, Lo(axis, dragged), threshold, bestDist, best)
    requires Winning(axis, dragged, sorted, won, Standing(bestDist, best), initial)
    ensures Tracks(seen + [Beyond(axis, dragged, sorted[i], sorted[j]).target,
                           Ahead(axis, dragged, sorted[i], sorted[j]).target],
                   Lo(axis, dragged), threshold, bestDist', best')
    ensures Winning(axis, dragged, sorted, won', Standing(bestDist', best'), initial)
  {
    var beyond := Winner(Beyond(axis, dragged, sorted[i], sorted[j]), i, j);
    bestDist', best', won' := TryPlacement(axis, dragged, sorted, beyond, bestDist, best, won, seen, threshold,
                                           initial);
    var ahead := Winner(Ahead(axis, dragged, sorted[i], sorted[j]), i, j);
    bestDist', best', won' := TryPlacement(axis, dragged, sorted, ahead, bestDist', best', won',
                                           seen + [beyond.placement.target], threshold, initial);
    assert seen + [beyond.placement.target] + [ahead.placement.target]
           == seen + [beyond.placement.target, ahead.placement.target];
  }

  // ---------------------------------------------------------------- the chain of further boxes

  datatype Direction = Down | Up

  /** The candidate stands next to `cur` in the direction, at the spacing give or take 1. */
  predicate Linked(axis: Axis, d: Direction, spacing: real, cur: Rect, candidate: Rect) {
    if d.Down? then Abs(Hi(axis, candidate) - (Lo(axis, cur) - spacing)) < 1.0
    else Abs(Lo(axis, candidate) - (Hi(axis, cur) + spacing)) < 1.0
  }

  function LinkGuide(axis: Axis, d: Direction, cur: Rect, candidate: Rect): Guide {
    SpacingGuide(axis, Min(Mid(Cross(axis), candidate), Mid(Cross(axis), cur)),
                 if d.Down? then Hi(axis, candidate) else Hi(axis, cur),
                 if d.Down? then Lo(axis, cur) else Lo(axis, candidate))
  }

  /** `k` lies between `from` and `to` in the direction, both excluded. */
  predicate Within(d: Direction, from: int, k: int, to: int) {
    if d.Down? then to < k < from else from < k < to
  }

  /** No box between the two indices is linked to the box at `from`. */
  ghost predicate NoLinkBefore(axis: Axis, d: Direction, sorted: seq<Rect>, spacing: real, from: nat, to: int)
    requires from < |sorted|
  {
    forall k: nat :: k < |sorted| && Within(d, from, k, to) ==> !Linked(axis, d, spacing, sorted[from], sorted[k])
  }

  /** `to` is the first box linked to `from` in the direction. */
  ghost predicate LinksTo(axis: Axis, d: Direction, sorted: seq<Rect>, spacing: real, from: nat, to: nat) {
    && from < |sorted| && to < |sorted| && (if d.Down? then to < from else from < to)
    && Linked(axis, d, spacing, sorted[from], sorted[to]) && NoLinkBefore(axis, d, sorted, spacing, from, to)
  }

  /** A walk from `start`: each box is the first one linked to the box before it. */
  ghost predicate IsWalk(axis: Axis, d: Direction, sorted: seq<Rect>, spacing: real, start: nat, visited: seq<nat>) {
    && visited != [] && visited[0] == start
    && (forall n :: 0 <= n < |visited| ==> visited[n] < |sorted|)
    && forall n :: 0 < n < |visited| ==> LinksTo(axis, d, sorted, spacing, visited[n - 1], visited[n])
  }

  /** The walk goes on until no further box is linked to its last one. */
  ghost predicate IsWholeWalk(axis: Axis, d: Direction, sorted: seq<Rect>, spacing: real, start: nat,
                              visited: seq<nat>) {
    && IsWalk(axis, d, sorted, spacing, start, visited)
    && NoLinkBefore(axis, d, sorted, spacing, visited[|visited| - 1], if d.Down? then -1 else |sorted|)
  }

  function WalkGuides(axis: Axis, d: Direction, sorted: seq<Rect>, visited: seq<nat>): seq<Guide>
    requires visited != [] && forall n :: 0 <= n < |visited| ==> visited[n] < |sorted|
  {
    seq(|visited| - 1, n requires 0 <= n < |visited| - 1 =>
      LinkGuide(axis, d, sorted[visited[n]], sorted[visited[n + 1]]))
  }

  lemma WalkGrows(axis: Axis, d: Direction, sorted: seq<Rect>, spacing: real, start: nat, visited: seq<nat>, k: nat)
    requires IsWalk(axis, d, sorted, spacing, start, visited)
    requires LinksTo(axis, d, sorted, spacing, visited[|visited| - 1], k)
    ensures IsWalk(axis, d, sorted, spacing, start, visited + [k])
  {
    var next := visited + [k];
    forall n | 0 < n < |next| ensures LinksTo(axis, d, sorted, spacing, next[n - 1], next[n]) {
      if n < |visited| { assert next[n - 1] == visited[n - 1] && next[n] == visited[n]; }
    }
  }

  /** The index the search looks at after `k`. */
  function After(d: Direction, k: int): int { if d.Down? then k - 1 else k + 1 }

  /** The search has come to `cur` and has found nothing linked to it before `to`. */
  ghost predicate Walking(axis: Axis, d: Direction, sorted: seq<Rect>, spacing: real, start: nat, visited: seq<nat>,
                          cur: nat, to: int, guides: seq<Guide>) {
    && IsWalk(axis, d, sorted, spacing, start, visited) && cur == visited[|visited| - 1]
    && NoLinkBefore(axis, d, sorted, spacing, cur, to) && guides == WalkGuides(axis, d, sorted, visited)
  }

  lemma GuidesGrow(axis: Axis, d: Direction, sorted: seq<Rect>, visited: seq<nat>, cur: nat, k: nat)
    requires visited != [] && (forall n :: 0 <= n < |visited| ==> visited[n] < |sorted|) && k < |sorted|
    requires cur == visited[|visited| - 1]
    ensures WalkGuides(axis, d, sorted, visited + [k])
            == WalkGuides(axis, d, sorted, visited) + [LinkGuide(axis, d, sorted[cur], sorted[k])]
  {
  }

  lemma NothingLinked(axis: Axis, d: Direction, sorted: seq<Rect>, spacing: real, cur: nat, k: nat)
    requires cur < |sorted| && k < |sorted| && (if d.Down? then k < cur else cur < k)
    requires NoLinkBefore(axis, d, sorted, spacing, cur, k) && !Linked(axis, d, spacing, sorted[cur], sorted[k])
    ensures NoLinkBefore(axis, d, sorted, spacing, cur, After(d, k))
  {
  }

  lemma WalkOn(axis: Axis, d: Direction, sorted: seq<Rect>, spacing: real, start: nat, visited: seq<nat>, cur: nat,
               k: nat, guides: seq<Guide>)
    requires Walking(axis, d, sorted, spacing, start, visited, cur, k, guides)
    requires k < |sorted| && (if d.Down? then k < cur else cur < k)
    requires Linked(axis, d, spacing, sorted[cur], sorted[k])
    ensures Walking(axis, d, sorted, spacing, start, visited + [k], k, After(d, k),
                    guides + [LinkGuide(axis, d, sorted[cur], sorted[k])])
  {
    assert LinksTo(axis, d, sorted, spacing, cur, k);
    WalkGrows(axis, d, sorted, spacing, start, visited, k);
    GuidesGrow(axis, d, sorted, visited, cur, k);
  }

  lemma PassOver(axis: Axis, d: Direction, sorted: seq<Rect>, spacing: real, start: nat, visited: seq<nat>, cur: nat,
                 k: nat, guides: seq<Guide>)
    requires Walking(axis, d, sorted, spacing, start, visited, cur, k, guides)
    requires k < |sorted| && (if d.Down? then k < cur else cur < k)
    requires !Linked(axis, d, spacing, sorted[cur], sorted[k])
    ensures Walking(axis, d, sorted, spacing, start, visited, cur, After(d, k), guides)
  {
    NothingLinked(axis, d, sorted, spacing, cur, k);
  }

  method WalkDown(axis: Axis, sorted: seq<Rect>, spacing: real, start: nat)
    returns (guides: seq<Guide>, ghost visited: seq<nat>)
    requires start < |sorted|
    ensures IsWholeWalk(axis, Down, sorted, spacing, start, visited)
    ensures guides == WalkGuides(axis, Down, sorted, visited)
  {
    guides, visited := [], [start];
    var cur := start;
    for k := start downto 0
      invariant k <= cur < |sorted| && Walking(axis, Down, sorted, spacing, start, visited, cur, k - 1, guides)
    {
      if Linked(axis, Down, spacing, sorted[cur], sorted[k]) {
        WalkOn(axis, Down, sorted, spacing, start, visited, cur, k, guides);
        guides := guides + [LinkGuide(axis, Down, sorted[cur], sorted[k])];
        cur, visited := k, visited + [k];
      } else {
        PassOver(axis, Down, sorted, spacing, start, visited, cur, k, guides);
      }
    }
  }

  method WalkUp(axis: Axis, sorted: seq<Rect>, spacing: real, start: nat)
    returns (guides: seq<Guide>, ghost visited: seq<nat>)
    requires start < |sorted|
    ensures IsWholeWalk(axis, Up, sorted, spacing, start, visited)
    ensures guides == WalkGuides(axis, Up, sorted, visited)
  {
    guides, visited := [], [start];
    var cur := start;
    for k := start + 1 to |sorted|
      invariant 0 <= cur < k && Walking(axis, Up, sorted, spacing, start, visited, cur, k, guides)
    {
      if Linked(axis, Up, spacing, sorted[cur], sorted[k]) {
        WalkOn(axis, Up, sorted, spacing, start, visited, cur, k, guides);
        guides := guides + [LinkGuide(axis, Up, sorted[cur], sorted[k])];
        cur, visited := k, visited + [k];
      } else {
        PassOver(axis, Up, sorted, spacing, start, visited, cur, k, guides);
      }
    }
  }

  /** The walks down from `i` and up from `j`, each to its end. */
  ghost predicate IsChain(axis: Axis, sorted: seq<Rect>, spacing: real, i: nat, j: nat, guides: seq<Guide>) {
    exists down, up ::
      && IsWholeWalk(axis, Down, sorted, spacing, i, down) && IsWholeWalk(axis, Up, sorted, spacing, j, up)
      && guides == WalkGuides(axis, Down, sorted, down) + WalkGuides(axis, Up, sorted, up)
  }

  /** Further shapes at the same spacing, outward from the winning pair. */
  method WalkChain(axis: Axis, sorted: seq<Rect>, spacing: real, i: nat, j: nat) returns (guides: seq<Guide>)
    requires i < j < |sorted|
    ensures IsChain(axis, sorted, spacing, i, j, guides)
  {
    ghost var down, up;
    var left, right;
    left, down := WalkDown(axis, sorted, spacing, i);
    right, up := WalkUp(axis, sorted, spacing, j);
    guides := left + right;
  }

  /** Each direction has one whole walk, so the chain is determined. */
  lemma WalkUnique(axis: Axis, d: Direction, sorted: seq<Rect>, spacing: real, start: nat,
                   visited: seq<nat>, visited': seq<nat>)
    requires IsWholeWalk(axis, d, sorted, spacing, start, visited)
    requires IsWholeWalk(axis, d, sorted, spacing, start, visited')
    ensures visited == visited'
  {
    WalkPrefix(axis, d, sorted, spacing, start, visited, visited', |visited|);
    WalkPrefix(axis, d, sorted, spacing, start, visited', visited, |visited'|);
  }

  lemma {:induction false} WalkPrefix(axis: Axis, d: Direction, sorted: seq<Rect>, spacing: real, start: nat,
                                      visited: seq<nat>, visited': seq<nat>, n: nat)
    requires IsWalk(axis, d, sorted, spacing, start, visited) && 0 < n <= |visited|
    requires IsWholeWalk(axis, d, sorted, spacing, start, visited')
    ensures n <= |visited'| && visited[..n] == visited'[..n]
  {
    if n > 1 {
      WalkPrefix(axis, d, sorted, spacing, start, visited, visited', n - 1);
      var last, next := visited[n - 2], visited[n - 1];
      assert visited[..n - 1][n - 2] == visited'[..n - 1][n - 2];
      assert LinksTo(axis, d, sorted, spacing, last, next);
      if n <= |visited'| {
        var next' := visited'[n - 1];
        assert LinksTo(axis, d, sorted, spacing, last, next');
        assert !Within(d, last, next, next') && !Within(d, last, next', next);
        assert visited[..n] == visited[..n - 1] + [next] && visited'[..n] == visited'[..n - 1] + [next'];
      }
    }
  }

  /** Every guide of a chain is within 1 of the spacing. */
  lemma ChainNearSpacing(axis: Axis, sorted: seq<Rect>, spacing: real, i: nat, j: nat, guides: seq<Guide>)
    requires IsChain(axis, sorted, spacing, i, j, guides)
    ensures forall g :: g in guides ==> Abs(Length(g) - spacing) < 1.0
  {
    var down, up :|
      && IsWholeWalk(axis, Down, sorted, spacing, i, down) && IsWholeWalk(axis, Up, sorted, spacing, j, up)
      && guides == WalkGuides(axis, Down, sorted, down) + WalkGuides(axis, Up, sorted, up);
    WalkNearSpacing(axis, Down, sorted, spacing, i, down);
    WalkNearSpacing(axis, Up, sorted, spacing, j, up);
  }

  /** The guide fills the gap from the lower to the upper box, at the lower one of their centres across. */
  predicate FillsGap(axis: Axis, lower: Rect, upper: Rect, g: Guide) {
    var c := Cross(axis);
    && g == SpacingGuide(axis, g.position, Hi(axis, lower), Lo(axis, upper))
    && (2.0 * g.position == Lo(c, lower) + Hi(c, lower) || 2.0 * g.position == Lo(c, upper) + Hi(c, upper))
    && 2.0 * g.position <= Lo(c, lower) + Hi(c, lower) && 2.0 * g.position <= Lo(c, upper) + Hi(c, upper)
  }

  ghost predicate FillsSomeGap(axis: Axis, sorted: seq<Rect>, g: Guide) {
    exists a: nat, b: nat :: a < b < |sorted| && FillsGap(axis, sorted[a], sorted[b], g)
  }

  /** Every guide of a chain fills the gap between two of the boxes. */
  lemma ChainFillsGaps(axis: Axis, sorted: seq<Rect>, spacing: real, i: nat, j: nat, guides: seq<Guide>)
    requires IsChain(axis, sorted, spacing, i, j, guides)
    ensures forall g :: g in guides ==> FillsSomeGap(axis, sorted, g)
  {
    var down, up :|
      && IsWholeWalk(axis, Down, sorted, spacing, i, down) && IsWholeWalk(axis, Up, sorted, spacing, j, up)
      && guides == WalkGuides(axis, Down, sorted, down) + WalkGuides(axis, Up, sorted, up);
    WalkFillsGaps(axis, Down, sorted, spacing, i, down);
    WalkFillsGaps(axis, Up, sorted, spacing, j, up);
  }

  lemma WalkFillsGaps(axis: Axis, d: Direction, sorted: seq<Rect>, spacing: real, start: nat, visited: seq<nat>)
    requires IsWalk(axis, d, sorted, spacing, start, visited)
    ensures forall g :: g in WalkGuides(axis, d, sorted, visited) ==> FillsSomeGap(axis, sorted, g)
  {
    var guides := WalkGuides(axis, d, sorted, visited);
    forall n | 0 <= n < |guides| ensures FillsSomeGap(axis, sorted, guides[n]) {
      assert LinksTo(axis, d, sorted, spacing, visited[n + 1 - 1], visited[n + 1]);
      if d.Down? {
        assert FillsGap(axis, sorted[visited[n + 1]], sorted[visited[n]], guides[n]);
      } else {
        assert FillsGap(axis, sorted[visited[n]], sorted[visited[n + 1]], guides[n]);
      }
    }
  }

  lemma WalkNearSpacing(axis: Axis, d: Direction, sorted: seq<Rect>, spacing: real, start: nat, visited: seq<nat>)
    requires IsWalk(axis, d, sorted, spacing, start, visited)
    ensures forall g :: g in WalkGuides(axis, d, sorted, visited) ==> Abs(Length(g) - spacing) < 1.0
  {
    var guides := WalkGuides(axis, d, sorted, visited);
    forall n | 0 <= n < |guides| ensures Abs(Length(guides[n]) - spacing) < 1.0 {
      assert LinksTo(axis, d, sorted, spacing, visited[n + 1 - 1], visited[n + 1]);
    }
  }

  lemma TargetsConcat(a: seq<Placement>, b: seq<Placement>)
    ensures Targets(a + b) == Targets(a) + Targets(b)
  {
  }

  /** The first nearest of the list is at index `n` or later. */
  ghost predicate WinsFrom(list: seq<real>, at: real, threshold: real, n: nat) {
    exists k: nat :: n <= k && FirstNearest(list, at, threshold, k)
  }

  lemma NoWinner(seen: seq<real>, more: seq<real>, at: real, threshold: real, d: real, best: Option<Best>)
    requires Tracks(seen, at, threshold, d, best) && Tracks(seen + more, at, threshold, d, best)
    ensures !WinsFrom(seen + more, at, threshold, |seen|)
  {
    if best.Some? {
      var k: nat :| FirstNearest(seen, at, threshold, k) && seen[k] == best.value.snap;
      assert (seen + more)[k] == best.value.snap;
    }
  }

  lemma NearerWins(seen: seq<real>, more: seq<real>, at: real, threshold: real, was: Standing, now: Standing)
    requires Tracks(seen, at, threshold, was.dist, was.best) && Tracks(seen + more, at, threshold, now.dist, now.best)
    requires now.dist < was.dist && now.best.Some?
    ensures WinsFrom(seen + more, at, threshold, |seen|)
  {
    var all := seen + more;
    var k: nat :| FirstNearest(all, at, threshold, k) && all[k] == now.best.value.snap;
    if was.best.Some? {
      var j: nat :| FirstNearest(seen, at, threshold, j) && seen[j] == was.best.value.snap;
      assert forall i :: 0 <= i < |seen| ==> Abs(at - seen[j]) <= Abs(at - seen[i]);
    }
    assert forall i :: 0 <= i < |seen| ==> all[i] == seen[i];
  }

  /** Spacing decides where the box goes when the first nearest candidate is none of the alignments. */
  ghost predicate SpacingWins(axis: Axis, dragged: Rect, others: seq<Rect>, threshold: real) {
    WinsFrom(Candidates(axis, dragged, others), Lo(axis, dragged), threshold, |AllAlignments(axis, dragged, others)|)
  }

  /** That is when some placement within the threshold is strictly nearer than every alignment: ties go to alignment. */
  lemma SpacingWinsExactly(axis: Axis, dragged: Rect, others: seq<Rect>, threshold: real)
    ensures SpacingWins(axis, dragged, others, threshold)
            <==> exists t :: t in Targets(AllPlacements(axis, dragged, others))
                             && BeatsAlignment(axis, dragged, others, threshold, t)
  {
    var placed := Targets(AllPlacements(axis, dragged, others));
    if SpacingWins(axis, dragged, others, threshold) {
      var t := WinnerBeats(axis, dragged, others, threshold);
      assert t in placed && BeatsAlignment(axis, dragged, others, threshold, t);
    }
    if t :| t in placed && BeatsAlignment(axis, dragged, others, threshold, t) {
      BeatingWins(axis, dragged, others, threshold, t);
    }
  }

  lemma LaterWinner(first: seq<real>, later: seq<real>, at: real, threshold: real) returns (t: real)
    requires WinsFrom(first + later, at, threshold, |first|)
    ensures t in later && Abs(at - t) < threshold && forall a | a in first :: Abs(at - t) < Abs(at - a)
  {
    var list := first + later;
    var k: nat :| |first| <= k && FirstNearest(list, at, threshold, k);
    t := later[k - |first|];
    forall a | a in first ensures Abs(at - t) < Abs(at - a) {
      var i :| 0 <= i < |first| && first[i] == a;
      assert list[i] == a;
    }
  }

  lemma WinnerBeats(axis: Axis, dragged: Rect, others: seq<Rect>, threshold: real) returns (t: real)
    requires SpacingWins(axis, dragged, others, threshold)
    ensures t in Targets(AllPlacements(axis, dragged, others)) && BeatsAlignment(axis, dragged, others, threshold, t)
  {
    t := LaterWinner(AllAlignments(axis, dragged, others), Targets(AllPlacements(axis, dragged, others)),
                     Lo(axis, dragged), threshold);
  }

  lemma BeatingWins(axis: Axis, dragged: Rect, others: seq<Rect>, threshold: real, t: real)
    requires t in Targets(AllPlacements(axis, dragged, others)) && BeatsAlignment(axis, dragged, others, threshold, t)
    ensures SpacingWins(axis, dragged, others, threshold)
  {
    var aligned, list := AllAlignments(axis, dragged, others), Candidates(axis, dragged, others);
    assert t in list;
    var n := NearestOf(list, Lo(axis, dragged), threshold, t);
    assert forall i :: 0 <= i < |aligned| ==> list[i] == aligned[i];
    assert forall i :: 0 <= i < |aligned| ==> list[i] in aligned;
    assert |aligned| <= n;
  }

  predicate BeatsAlignment(axis: Axis, dragged: Rect, others: seq<Rect>, threshold: real, t: real) {
    && Abs(Lo(axis, dragged) - t) < threshold
    && forall a | a in AllAlignments(axis, dragged, others) :: Abs(Lo(axis, dragged) - t) < Abs(Lo(axis, dragged) - a)
  }

  lemma FirstStaysNearest(list: seq<real>, at: real, threshold: real, k: nat)
    requires list != [] && FirstNearest(list[..|list| - 1], at, threshold, k)
    requires Abs(at - list[k]) <= Abs(at - list[|list| - 1])
    ensures FirstNearest(list, at, threshold, k)
  {
    assert forall i :: 0 <= i < |list| - 1 ==> list[i] == list[..|list| - 1][i];
  }

  lemma LastIsNearest(list: seq<real>, at: real, threshold: real)
    requires list != [] && Abs(at - list[|list| - 1]) < threshold
    requires forall i :: 0 <= i < |list| - 1 ==> Abs(at - list[|list| - 1]) < Abs(at - list[i])
    ensures FirstNearest(list, at, threshold, |list| - 1)
  {
  }

  lemma {:induction false} NearestOf(list: seq<real>, at: real, threshold: real, t: real) returns (k: nat)
    requires t in list && Abs(at - t) < threshold
    ensures FirstNearest(list, at, threshold, k) && Abs(at - list[k]) <= Abs(at - t)
  {
    var init, last := list[..|list| - 1], list[|list| - 1];
    var near := t;
    if t !in init {
      assert t == last;
      if x :| x in init && Abs(at - x) <= Abs(at - t) {
        near := x;
      } else {
        assert forall i :: 0 <= i < |list| - 1 ==> list[i] in init;
        LastIsNearest(list, at, threshold);
        return |list| - 1;
      }
    }
    k := NearestOf(init, at, threshold, near);
    if Abs(at - init[k]) <= Abs(at - last) {
      FirstStaysNearest(list, at, threshold, k);
    } else {
      assert forall i :: 0 <= i < |list| - 1 ==> list[i] == init[i];
      LastIsNearest(list, at, threshold);
      k := |list| - 1;
    }
  }

  /**
   The spacing guides of the result, if there are any: the first two mark the gaps of an even row
   formed by the box at its snapped position and two of the boxes considered, and the others are the
   chain outward from those two, at the same spacing.
   */
  ghost predicate SpacingGuides(axis: Axis, dragged: Rect, pool: seq<Rect>, guides: seq<Guide>, snap: Option<real>) {
    guides != [] ==>
      && |guides| >= 2 && snap.Some?
      && exists i: nat, j: nat ::
           && InRow(axis, dragged, pool, guides[0], guides[1], snap.value, i, j)
           && IsChain(axis, pool, Length(guides[0]), i, j, guides[2..])
  }

  ghost predicate InRow(axis: Axis, dragged: Rect, pool: seq<Rect>, first: Guide, second: Guide, at: real, i: nat,
                        j: nat) {
    && i < j < |pool| && Eligible(axis, pool[i], pool[j])
    && ShowsEvenRow(axis, MovedTo(axis, dragged, at), pool[i], pool[j], first, second)
  }

  function SnapOf(best: Option<Best>): Option<real> { if best.Some? then Some(best.value.snap) else None }

  /** What has been tracked, followed by the row from `j` on, is what was seen before and the whole row. */
  ghost predicate RowDone(axis: Axis, dragged: Rect, sorted: seq<Rect>, i: nat, j: nat, seen: seq<real>,
                          tracked: seq<real>)
    requires i < |sorted|
  {
    tracked + Targets(RowFrom(axis, dragged, sorted, i, j)) == seen + Targets(RowFrom(axis, dragged, sorted, i, i + 1))
  }

  lemma RowStep(axis: Axis, dragged: Rect, sorted: seq<Rect>, i: nat, j: nat, seen: seq<real>, tracked: seq<real>)
    requires i < j < |sorted| && RowDone(axis, dragged, sorted, i, j, seen, tracked)
    ensures RowDone(axis, dragged, sorted, i, j + 1, seen,
                    tracked + Targets(Placements(axis, dragged, sorted[i], sorted[j])))
  {
    var ps, rest := Placements(axis, dragged, sorted[i], sorted[j]), RowFrom(axis, dragged, sorted, i, j + 1);
    TargetsConcat(ps, rest);
    Associate(tracked, Targets(ps), Targets(rest));
  }

  lemma RowEnds(axis: Axis, dragged: Rect, sorted: seq<Rect>, i: nat, seen: seq<real>, tracked: seq<real>)
    requires i < |sorted| && RowDone(axis, dragged, sorted, i, |sorted|, seen, tracked)
    ensures tracked == seen + Targets(RowFrom(axis, dragged, sorted, i, i + 1))
  {
    assert tracked + [] == tracked;
  }

  /** The inner loop of the search. */
  method SearchRow(axis: Axis, dragged: Rect, sorted: seq<Rect>, i: nat, bestDist: real, best: Option<Best>,
                   won: Option<Winner>, ghost seen: seq<real>, ghost threshold: real, ghost initial: Standing)
    returns (bestDist': real, best': Option<Best>, won': Option<Winner>)
    requires i < |sorted|
    requires Tracks(seen, Lo(axis, dragged), threshold, bestDist, best)
    requires Winning(axis, dragged, sorted, won, Standing(bestDist, best), initial)
    ensures Tracks(seen + Targets(RowFrom(axis, dragged, sorted, i, i + 1)), Lo(axis, dragged), threshold, bestDist',
                   best')
    ensures Winning(axis, dragged, sorted, won', Standing(bestDist', best'), initial)
  {
    bestDist', best', won' := bestDist, best, won;
    ghost var tracked := seen;
    for j := i + 1 to |sorted|
      invariant RowDone(axis, dragged, sorted, i, j, seen, tracked)
      invariant Tracks(tracked, Lo(axis, dragged), threshold, bestDist', best')
      invariant Winning(axis, dragged, sorted, won', Standing(bestDist', best'), initial)
    {
      bestDist', best', won' := TryPair(axis, dragged, sorted, i, j, bestDist', best', won', tracked, threshold,
                                        initial);
      RowStep(axis, dragged, sorted, i, j, seen, tracked);
      tracked := tracked + Targets(Placements(axis, dragged, sorted[i], sorted[j]));
    }
    RowEnds(axis, dragged, sorted, i, seen, tracked);
  }

  ghost predicate RowsDone(axis: Axis, dragged: Rect, sorted: seq<Rect>, i: nat, seen: seq<real>, tracked: seq<real>) {
    tracked + Targets(PlacementsFrom(axis, dragged, sorted, i))
    == seen + Targets(PlacementsFrom(axis, dragged, sorted, 0))
  }

  lemma RowsStep(axis: Axis, dragged: Rect, sorted: seq<Rect>, i: nat, seen: seq<real>, tracked: seq<real>)
    requires i < |sorted| && RowsDone(axis, dragged, sorted, i, seen, tracked)
    ensures RowsDone(axis, dragged, sorted, i + 1, seen, tracked + Targets(RowFrom(axis, dragged, sorted, i, i + 1)))
  {
    var row, rest := RowFrom(axis, dragged, sorted, i, i + 1), PlacementsFrom(axis, dragged, sorted, i + 1);
    TargetsConcat(row, rest);
    Associate(tracked, Targets(row), Targets(rest));
  }

  lemma RowsEnd(axis: Axis, dragged: Rect, sorted: seq<Rect>, seen: seq<real>, tracked: seq<real>)
    requires RowsDone(axis, dragged, sorted, |sorted|, seen, tracked)
    ensures tracked == seen + Targets(PlacementsFrom(axis, dragged, sorted, 0))
  {
    assert tracked + [] == tracked;
  }

  /** The searches of both `detect_equal_spacing_h` and `detect_equal_spacing_v`. */
  method SearchPairs(axis: Axis, dragged: Rect, sorted: seq<Rect>, bestDist: real, best: Option<Best>,
                     ghost seen: seq<real>, ghost threshold: real)
    returns (bestDist': real, best': Option<Best>, won: Option<Winner>)
    requires Tracks(seen, Lo(axis, dragged), threshold, bestDist, best)
    ensures Tracks(seen + Targets(PlacementsFrom(axis, dragged, sorted, 0)), Lo(axis, dragged), threshold, bestDist',
                   best')
    ensures Winning(axis, dragged, sorted, won, Standing(bestDist', best'), Standing(bestDist, best))
  {
    bestDist', best', won := bestDist, best, None;
    ghost var tracked := seen;
    for i := 0 to |sorted|
      invariant RowsDone(axis, dragged, sorted, i, seen, tracked)
      invariant Tracks(tracked, Lo(axis, dragged), threshold, bestDist', best')
      invariant Winning(axis, dragged, sorted, won, Standing(bestDist', best'), Standing(bestDist, best))
    {
      bestDist', best', won := SearchRow(axis, dragged, sorted, i, bestDist', best', won, tracked, threshold,
                                         Standing(bestDist, best));
      RowsStep(axis, dragged, sorted, i, seen, tracked);
      tracked := tracked + Targets(RowFrom(axis, dragged, sorted, i, i + 1));
    }
    RowsEnd(axis, dragged, sorted, seen, tracked);
  }

  lemma SortKeepsMembers(axis: Axis, rects: seq<Rect>)
    ensures forall r :: r in SortByLo(axis, rects) <==> r in rects
  {
    SortSorts(axis, rects);
    forall r ensures r in SortByLo(axis, rects) <==> r in rects {
      assert r in SortByLo(axis, rects) <==> r in multiset(SortByLo(axis, rects));
      assert r in rects <==> r in multiset(rects);
    }
  }

  /** Sort, search, then draw the winner's guides and its chain. */
  method DetectEqualSpacing(axis: Axis, dragged: Rect, candidates: seq<Rect>, bestDist: real, best: Option<Best>,
                            ghost seen: seq<real>, ghost threshold: real, ghost among: seq<Rect>)
    returns (bestDist': real, best': Option<Best>, guides: seq<Guide>)
    requires Tracks(seen, Lo(axis, dragged), threshold, bestDist, best)
    requires MeetsGuide(axis, dragged, among, best) && forall r :: r in candidates ==> r in among
    ensures Tracks(seen + Targets(PlacementsFrom(axis, dragged, SortByLo(axis, candidates), 0)), Lo(axis, dragged),
                   threshold, bestDist', best')
    ensures SpacingGuides(axis, dragged, SortByLo(axis, candidates), guides, SnapOf(best'))
    ensures guides != [] <==> WinsFrom(seen + Targets(PlacementsFrom(axis, dragged, SortByLo(axis, candidates), 0)),
                                       Lo(axis, dragged), threshold, |seen|)
    ensures MeetsGuide(axis, dragged, among, best')
  {
    var sorted := SortByLo(axis, candidates);
    var won;
    bestDist', best', won := SearchPairs(axis, dragged, sorted, bestDist, best, seen, threshold);
    guides := [];
    SortKeepsMembers(axis, candidates);
    ghost var more := Targets(PlacementsFrom(axis, dragged, sorted, 0));
    if won.None? {
      NoWinner(seen, more, Lo(axis, dragged), threshold, bestDist, best);
    } else {
      NearerWins(seen, more, Lo(axis, dragged), threshold, Standing(bestDist, best), Standing(bestDist', best'));
      var p, i, j := won.value.placement, won.value.i, won.value.j;
      var chain := WalkChain(axis, sorted, p.spacing, i, j);
      guides := [p.first, p.second] + chain;
      assert InRow(axis, dragged, sorted, guides[0], guides[1], p.target, i, j);
      assert guides[2..] == chain;
    }
  }

  // ---------------------------------------------------------------- the whole detection

  datatype GuideResult = GuideResult(x: real, y: real, guides: seq<Guide>, snappedX: bool, snappedY: bool)

  /** Along one axis the box moves to the first nearest candidate within the threshold, or stays put. */
  ghost predicate SnapsToNearest(axis: Axis, dragged: Rect, others: seq<Rect>, threshold: real, at: real,
                                 snapped: bool) {
    var list := Candidates(axis, dragged, others);
    if snapped then exists k: nat :: FirstNearest(list, Lo(axis, dragged), threshold, k) && list[k] == at
    else at == Lo(axis, dragged) && NoneNear(list, Lo(axis, dragged), threshold)
  }

  /**
   Along one axis: the nearest candidate among all alignments and all eligible equal-spacing placements,
   strictly within the threshold, or no move when there is none; and spacing guides for the snapped
   position exactly when a placement won.
   */
  ghost predicate Detects(axis: Axis, dragged: Rect, others: seq<Rect>, threshold: real, at: real, snapped: bool,
                          spacing: seq<Guide>) {
    && SnapsToNearest(axis, dragged, others, threshold, at, snapped)
    && SpacingGuides(axis, dragged, SpacingPool(axis, dragged, others), spacing, if snapped then Some(at) else None)
    && (spacing != [] <==> SpacingWins(axis, dragged, others, threshold))
  }

  /** The alignment phase for both axes, over all other boxes. */
  method AlignAll(dragged: Rect, others: seq<Rect>, threshold: real)
    returns (distX: real, bestX: Option<Best>, distY: real, bestY: Option<Best>)
    ensures Tracks(AllAlignments(X, dragged, others), Lo(X, dragged), threshold, distX, bestX)
    ensures Tracks(AllAlignments(Y, dragged, others), Lo(Y, dragged), threshold, distY, bestY)
    ensures MeetsGuide(X, dragged, others, bestX) && MeetsGuide(Y, dragged, others, bestY)
  {
    distX, bestX, distY, bestY := threshold, None, threshold, None;
    for n := 0 to |others|
      invariant Tracks(AllAlignments(X, dragged, others[..n]), Lo(X, dragged), threshold, distX, bestX)
      invariant Tracks(AllAlignments(Y, dragged, others[..n]), Lo(Y, dragged), threshold, distY, bestY)
      invariant MeetsGuide(X, dragged, others, bestX) && MeetsGuide(Y, dragged, others, bestY)
    {
      assert others[..n + 1][..n] == others[..n];
      distX, bestX := TryAlignments(X, dragged, others[n], distX, bestX, AllAlignments(X, dragged, others[..n]),
                                    threshold, others);
      distY, bestY := TryAlignments(Y, dragged, others[n], distY, bestY, AllAlignments(Y, dragged, others[..n]),
                                    threshold, others);
    }
    assert others[..|others|] == others;
  }

  lemma TracksToSnap(axis: Axis, dragged: Rect, others: seq<Rect>, threshold: real, d: real, best: Option<Best>)
    requires Tracks(Candidates(axis, dragged, others), Lo(axis, dragged), threshold, d, best)
    ensures SnapsToNearest(axis, dragged, others, threshold, At(axis, dragged, best), best.Some?)
  {
  }

  lemma OverlappingAmong(axis: Axis, dragged: Rect, others: seq<Rect>)
    ensures forall r :: r in Overlapping(axis, dragged, Shapes(others)) ==> r in others
  {
    forall r | r in Overlapping(axis, dragged, Shapes(others)) ensures r in others {
      OverlappingOverlap(axis, dragged, Shapes(others), r);
      ShapesAreReal(others, r);
    }
  }

  /** The spacing phase for one axis, skipped when there are too many shapes. */
  method SpaceAxis(axis: Axis, dragged: Rect, others: seq<Rect>, shapes: seq<Rect>, bestDist: real, best: Option<Best>,
                   ghost threshold: real)
    returns (best': Option<Best>, guides: seq<Guide>)
    requires shapes == Shapes(others)
    requires Tracks(AllAlignments(axis, dragged, others), Lo(axis, dragged), threshold, bestDist, best)
    requires MeetsGuide(axis, dragged, others, best)
    ensures Detects(axis, dragged, others, threshold, At(axis, dragged, best'), best'.Some?, guides)
    ensures MeetsGuide(axis, dragged, others, best')
  {
    ghost var seen := AllAlignments(axis, dragged, others);
    if |shapes| <= MAX_SPACING_CANDIDATES {
      var d;
      OverlappingAmong(axis, dragged, others);
      d, best', guides := DetectEqualSpacing(axis, dragged, Overlapping(axis, dragged, shapes), bestDist, best, seen,
                                             threshold, others);
      TracksToSnap(axis, dragged, others, threshold, d, best');
    } else {
      best', guides := best, [];
      assert seen + Targets(AllPlacements(axis, dragged, others)) == seen;
      TracksToSnap(axis, dragged, others, threshold, bestDist, best);
    }
  }

  lemma Parts<T>(a: seq<T>, b: seq<T>, c: seq<T>)
    ensures (a + b + c)[..|a|] == a && (a + b + c)[|a|..|a| + |b|] == b && (a + b + c)[|a| + |b|..] == c
  {
  }

  // ---------------------------------------------------------------- the alignment guides

  /** The marks of a box on the line at `at`: its edges and centre across, once for each anchor it has there. */
  function BoxTicks(axis: Axis, r: Rect, at: real, anchors: nat): seq<real>
    requires anchors <= 3
  {
    if anchors == 0 then []
    else
      BoxTicks(axis, r, at, anchors - 1)
      + if Abs(Anchors(axis, r)[anchors - 1] - at) < 0.1 then Anchors(Cross(axis), r) else []
  }

  function AllTicks(axis: Axis, others: seq<Rect>, at: real): seq<real> {
    if others == [] then []
    else
      var n := |others| - 1;
      AllTicks(axis, others[..n], at) + BoxTicks(axis, others[n], at, 3)
  }

  /** Some edge or centre of the box is within a tenth of the line. */
  predicate OnLine(axis: Axis, r: Rect, at: real) {
    exists a: nat | a < 3 :: Abs(Anchors(axis, r)[a] - at) < 0.1
  }

  lemma {:induction false} BoxTicksMark(axis: Axis, r: Rect, at: real, anchors: nat, y: real)
    requires anchors <= 3
    ensures y in BoxTicks(axis, r, at, anchors) <==>
              y in Anchors(Cross(axis), r) && exists a: nat :: a < anchors && Abs(Anchors(axis, r)[a] - at) < 0.1
  {
    if anchors > 0 {
      BoxTicksMark(axis, r, at, anchors - 1, y);
    }
  }

  /** The marks are the edges and centres of exactly the boxes on the line. */
  lemma {:induction false} TicksMarkBoxesOnLine(axis: Axis, others: seq<Rect>, at: real, y: real)
    ensures y in AllTicks(axis, others, at) <==> MarkedByOne(axis, others, at, y)
  {
    if others != [] {
      var n := |others| - 1;
      TicksMarkBoxesOnLine(axis, others[..n], at, y);
      BoxTicksMark(axis, others[n], at, 3, y);
      MarkedByLast(axis, others, at, y);
    }
  }

  /** Some box on the line has an edge or centre across at `y`. */
  ghost predicate MarkedByOne(axis: Axis, others: seq<Rect>, at: real, y: real) {
    exists n: nat :: n < |others| && Marks(axis, others[n], at, y)
  }

  predicate Marks(axis: Axis, r: Rect, at: real, y: real) {
    OnLine(axis, r, at) && y in Anchors(Cross(axis), r)
  }

  lemma MarkedByLast(axis: Axis, others: seq<Rect>, at: real, y: real)
    requires others != []
    ensures var n := |others| - 1;
            MarkedByOne(axis, others, at, y) <==> MarkedByOne(axis, others[..n], at, y) || Marks(axis, others[n], at, y)
  {
    var n := |others| - 1;
    if MarkedByOne(axis, others[..n], at, y) {
      var k: nat :| k < n && Marks(axis, others[..n][k], at, y);
      assert others[k] == others[..n][k];
    }
    if MarkedByOne(axis, others, at, y) && !Marks(axis, others[n], at, y) {
      var k: nat :| k < |others| && Marks(axis, others[k], at, y);
      assert others[..n][k] == others[k];
    }
  }

  method CollectBoxTicks(axis: Axis, r: Rect, at: real, before: seq<real>) returns (ticks: seq<real>)
    ensures ticks == before + BoxTicks(axis, r, at, 3)
  {
    ticks := before;
    for a := 0 to 3
      invariant ticks == before + BoxTicks(axis, r, at, a)
    {
      var here := Abs(Anchors(axis, r)[a] - at) < 0.1;
      Associate(before, BoxTicks(axis, r, at, a), if here then Anchors(Cross(axis), r) else []);
      if here {
        ticks := ticks + Anchors(Cross(axis), r);
      }
    }
  }

  method CollectTicks(axis: Axis, others: seq<Rect>, at: real, own: seq<real>) returns (ticks: seq<real>)
    ensures ticks == own + AllTicks(axis, others, at)
  {
    ticks := own;
    for n := 0 to |others|
      invariant ticks == own + AllTicks(axis, others[..n], at)
    {
      assert others[..n + 1][..n] == others[..n];
      Associate(own, AllTicks(axis, others[..n], at), BoxTicks(axis, others[n], at, 3));
      ticks := CollectBoxTicks(axis, others[n], at, ticks);
    }
    assert others[..|others|] == others;
  }

  /** The alignment guide spans the dragged box, between `lo` and `hi`, and the box it snapped to. */
  function SnapGuide(axis: Axis, lo: real, hi: real, b: Best, ticks: seq<real>): Guide {
    var o := b.other;
    var c := Cross(axis);
    Guide(axis, GuideKind.Alignment, b.guide,
          Min(Min(Min(lo, hi), Lo(c, o)), Hi(c, o)), Max(Max(Max(lo, hi), Lo(c, o)), Hi(c, o)), ticks)
  }

  /** The guide reaches exactly over the dragged box, from `lo` to `hi` across, and one other box. */
  predicate Spans(axis: Axis, lo: real, hi: real, o: Rect, g: Guide) {
    var ends := [lo, hi, Lo(Cross(axis), o), Hi(Cross(axis), o)];
    && g.start in ends && g.end in ends && forall x | x in ends :: g.start <= x <= g.end
  }

  /**
   An alignment guide on the snapped axis: it stands at an edge or the centre of the snapped box,
   spans that box and another, and its marks are the box's own and those of the boxes on the line.
   */
  predicate DrawsAlignment(axis: Axis, dragged: Rect, at: real, others: seq<Rect>, lo: real, hi: real,
                           own: seq<real>, g: Guide) {
    && g.axis == axis && g.kind == GuideKind.Alignment
    && g.position in Anchors(axis, MovedTo(axis, dragged, at))
    && (exists o | o in others :: Spans(axis, lo, hi, o, g))
    && g.ticks == own + AllTicks(axis, others, g.position)
  }

  function OwnTicksY(dragged: Rect, x: real): seq<real> {
    [x, x + Size(X, dragged), x + Size(X, dragged) / 2.0]
  }

  /** What is drawn last: one guide for each snapped axis, the second where the first has moved the box. */
  predicate DrawsSnaps(dragged: Rect, others: seq<Rect>, x: real, y: real, snappedX: bool, snappedY: bool,
                       drawn: seq<Guide>) {
    && |drawn| == (if snappedX then 1 else 0) + (if snappedY then 1 else 0)
    && (snappedX ==> DrawsAlignment(X, dragged, x, others, dragged.y0, dragged.y1, Anchors(Y, dragged), drawn[0]))
    && (snappedY ==> DrawsAlignment(Y, dragged, y, others, x, x + Size(X, dragged), OwnTicksY(dragged, x),
                                    drawn[|drawn| - 1]))
  }

  /**
   Both axes are detected as specified. The guides are the horizontal and vertical spacing guides,
   then the alignment guides of the snapped axes, the second drawn where the first has moved the box.
   */
  method DetectSmartGuides(dragged: Rect, others: seq<Rect>, threshold: real)
    returns (r: GuideResult, spacedX: nat, spacedY: nat)
    ensures spacedX + spacedY <= |r.guides|
    ensures Detects(X, dragged, others, threshold, r.x, r.snappedX, r.guides[..spacedX])
    ensures Detects(Y, dragged, others, threshold, r.y, r.snappedY, r.guides[spacedX..spacedX + spacedY])
    ensures DrawsSnaps(dragged, others, r.x, r.y, r.snappedX, r.snappedY, r.guides[spacedX + spacedY..])
  {
    var bestX, bestY, guidesX, guidesY := FindSnaps(dragged, others, threshold);
    spacedX, spacedY := |guidesX|, |guidesY|;
    var x, y, snaps, _, _ := ApplySnaps(dragged, others, bestX, bestY);
    var guides := guidesX + guidesY + snaps;
    Parts(guidesX, guidesY, snaps);
    r := GuideResult(x, y, guides, bestX.Some?, bestY.Some?);
  }

  function At(axis: Axis, dragged: Rect, best: Option<Best>): real {
    if best.Some? then best.value.snap else Lo(axis, dragged)
  }

  /** Both phases on both axes. */
  method FindSnaps(dragged: Rect, others: seq<Rect>, threshold: real)
    returns (bestX: Option<Best>, bestY: Option<Best>, guidesX: seq<Guide>, guidesY: seq<Guide>)
    ensures Detects(X, dragged, others, threshold, At(X, dragged, bestX), bestX.Some?, guidesX)
    ensures Detects(Y, dragged, others, threshold, At(Y, dragged, bestY), bestY.Some?, guidesY)
    ensures MeetsGuide(X, dragged, others, bestX) && MeetsGuide(Y, dragged, others, bestY)
  {
    var shapes := Shapes(others);
    var distX, alignedX, distY, alignedY := AlignAll(dragged, others, threshold);
    bestX, guidesX := SpaceAxis(X, dragged, others, shapes, distX, alignedX, threshold);
    bestY, guidesY := SpaceAxis(Y, dragged, others, shapes, distY, alignedY, threshold);
  }

  lemma SnapGuideSpans(axis: Axis, lo: real, hi: real, b: Best, ticks: seq<real>)
    ensures Spans(axis, lo, hi, b.other, SnapGuide(axis, lo, hi, b, ticks))
  {
  }

  /** The guide of a snapped axis and nothing of another: `own` are the dragged box's marks. */
  predicate DrawsOne(axis: Axis, dragged: Rect, others: seq<Rect>, best: Option<Best>, lo: real, hi: real,
                     own: seq<real>, drawn: seq<Guide>) {
    if best.None? then drawn == []
    else
      && drawn == [SnapGuide(axis, lo, hi, best.value, own + AllTicks(axis, others, best.value.guide))]
      && DrawsAlignment(axis, dragged, best.value.snap, others, lo, hi, own, drawn[0])
  }

  /** Move one coordinate and draw its alignment guide, if the axis has snapped. */
  method DrawSnap(axis: Axis, dragged: Rect, others: seq<Rect>, best: Option<Best>, lo: real, hi: real, own: seq<real>)
    returns (at: real, drawn: seq<Guide>)
    requires MeetsGuide(axis, dragged, others, best)
    ensures at == At(axis, dragged, best) && DrawsOne(axis, dragged, others, best, lo, hi, own, drawn)
  {
    at, drawn := Lo(axis, dragged), [];
    if best.Some? {
      at := best.value.snap;
      var ticks := CollectTicks(axis, others, best.value.guide, own);
      SnapGuideSpans(axis, lo, hi, best.value, ticks);
      drawn := [SnapGuide(axis, lo, hi, best.value, ticks)];
    }
  }

  /** Move the snapped coordinates and draw one alignment guide for each; the second sees the first's move. */
  method ApplySnaps(dragged: Rect, others: seq<Rect>, bestX: Option<Best>, bestY: Option<Best>)
    returns (x: real, y: real, snaps: seq<Guide>, ghost drawnX: seq<Guide>, ghost drawnY: seq<Guide>)
    requires MeetsGuide(X, dragged, others, bestX) && MeetsGuide(Y, dragged, others, bestY)
    ensures x == At(X, dragged, bestX) && y == At(Y, dragged, bestY) && snaps == drawnX + drawnY
    ensures DrawsOne(X, dragged, others, bestX, dragged.y0, dragged.y1, Anchors(Y, dragged), drawnX)
    ensures DrawsOne(Y, dragged, others, bestY, x, x + Size(X, dragged), OwnTicksY(dragged, x), drawnY)
    ensures DrawsSnaps(dragged, others, x, y, bestX.Some?, bestY.Some?, snaps)
  {
    var first, second;
    x, first := DrawSnap(X, dragged, others, bestX, dragged.y0, dragged.y1, Anchors(Y, dragged));
    y, second := DrawSnap(Y, dragged, others, bestY, x, x + Size(X, dragged), OwnTicksY(dragged, x));
    snaps, drawnX, drawnY := first + second, first, second;
    DrawBoth(dragged, others, bestX, bestY, x, y, first, second);
  }

  lemma DrawBoth(dragged: Rect, others: seq<Rect>, bestX: Option<Best>, bestY: Option<Best>, x: real, y: real,
                 first: seq<Guide>, second: seq<Guide>)
    requires x == At(X, dragged, bestX) && y == At(Y, dragged, bestY)
    requires DrawsOne(X, dragged, others, bestX, dragged.y0, dragged.y1, Anchors(Y, dragged), first)
    requires DrawsOne(Y, dragged, others, bestY, x, x + Size(X, dragged), OwnTicksY(dragged, x), second)
    ensures DrawsSnaps(dragged, others, x, y, bestX.Some?, bestY.Some?, first + second)
  {
    assert bestX.Some? ==> (first + second)[0] == first[0];
    assert bestY.Some? ==> (first + second)[|first + second| - 1] == second[0];
  }

  // ---------------------------------------------------------------- what the candidates are

  /** The dragged box with its lower edge at `at`. */
  function MovedTo(axis: Axis, dragged: Rect, at: real): Rect {
    if axis.X? then Rect(at, dragged.y0, at + Size(X, dragged), dragged.y1)
    else Rect(dragged.x0, at, dragged.x1, at + Size(Y, dragged))
  }

  /** Moving keeps the size and the other coordinate. */
  lemma MovingKeepsSize(axis: Axis, dragged: Rect, at: real)
    ensures var box := MovedTo(axis, dragged, at);
            && box.x1 - box.x0 == dragged.x1 - dragged.x0 && box.y1 - box.y0 == dragged.y1 - dragged.y0
            && (if axis.X? then box.x0 == at && box.y0 == dragged.y0 else box.y0 == at && box.x0 == dragged.x0)
    ensures MovedTo(axis, dragged, Lo(axis, dragged)) == dragged
  {
  }

  predicate Inside(r: Rect, x: real, y: real) { r.x0 < x < r.x1 && r.y0 < y < r.y1 }

  /** A box counts as a shape exactly when there is a point inside it. */
  lemma ShapesHaveInside(r: Rect)
    requires r.x0 <= r.x1 && r.y0 <= r.y1
    ensures !ZeroArea(r) <==> exists x, y :: Inside(r, x, y)
  {
    if !ZeroArea(r) {
      assert Inside(r, (r.x0 + r.x1) / 2.0, (r.y0 + r.y1) / 2.0);
    }
  }

  /** Of two such boxes, one is considered for spacing exactly when a line along the axis runs through both. */
  lemma OverlapsExactly(axis: Axis, dragged: Rect, r: Rect)
    requires dragged.x0 < dragged.x1 && dragged.y0 < dragged.y1 && r.x0 < r.x1 && r.y0 < r.y1
    ensures Overlaps(axis, dragged, r) <==>
              if axis.X? then exists x, x', y :: Inside(dragged, x, y) && Inside(r, x', y)
              else exists x, y, y' :: Inside(dragged, x, y) && Inside(r, x, y')
  {
    var c := Cross(axis);
    var at := (Max(Lo(c, dragged), Lo(c, r)) + Min(Hi(c, dragged), Hi(c, r))) / 2.0;
    var mine, other := Mid(axis, dragged), Mid(axis, r);
    if Overlaps(axis, dragged, r) {
      assert axis.X? ==> Inside(dragged, mine, at) && Inside(r, other, at);
      assert axis.Y? ==> Inside(dragged, at, mine) && Inside(r, at, other);
    }
  }

  /** An edge or centre of one box is on a line with an edge or centre of the other. */
  ghost predicate Aligned(axis: Axis, box: Rect, other: Rect) {
    exists n: nat :: n < 9 && Anchors(axis, box)[n / 3] == Anchors(axis, other)[n % 3]
  }

  ghost predicate AlignedWithOne(axis: Axis, box: Rect, others: seq<Rect>) {
    exists k: nat :: k < |others| && Aligned(axis, box, others[k])
  }

  /** Two real shapes beside the box, not too far apart, with which it makes an even row. */
  ghost predicate EvenWith(axis: Axis, box: Rect, left: Rect, right: Rect) {
    && !ZeroArea(left) && !ZeroArea(right) && Overlaps(axis, box, left) && Overlaps(axis, box, right)
    && Eligible(axis, left, right) && MakesEvenRow(ExtentOf(axis, box), ExtentOf(axis, left), ExtentOf(axis, right))
  }

  ghost predicate EvenWithTwo(axis: Axis, box: Rect, others: seq<Rect>) {
    exists left, right :: left in others && right in others && EvenWith(axis, box, left, right)
  }

  lemma AlignmentsAlign(axis: Axis, dragged: Rect, other: Rect, at: real)
    ensures at in Alignments(axis, dragged, other) <==> Aligned(axis, MovedTo(axis, dragged, at), other)
  {
    var list, box := Alignments(axis, dragged, other), MovedTo(axis, dragged, at);
    forall n: nat | n < 9
      ensures list[n] == at <==> Anchors(axis, box)[n / 3] == Anchors(axis, other)[n % 3]
    {
    }
    if at in list {
      var n: nat :| n < 9 && list[n] == at;
      assert Anchors(axis, box)[n / 3] == Anchors(axis, other)[n % 3];
    }
    if Aligned(axis, box, other) {
      var n: nat :| n < 9 && Anchors(axis, box)[n / 3] == Anchors(axis, other)[n % 3];
      assert list[n] == at;
    }
  }

  lemma {:induction false} AllAlignmentsAlign(axis: Axis, dragged: Rect, others: seq<Rect>, at: real)
    ensures at in AllAlignments(axis, dragged, others) <==> AlignedWithOne(axis, MovedTo(axis, dragged, at), others)
  {
    if others != [] {
      var n := |others| - 1;
      AllAlignmentsAlign(axis, dragged, others[..n], at);
      AlignmentsAlign(axis, dragged, others[n], at);
      var box := MovedTo(axis, dragged, at);
      if AlignedWithOne(axis, box, others[..n]) {
        var k: nat :| k < n && Aligned(axis, box, others[..n][k]);
        assert Aligned(axis, box, others[k]);
      }
      if AlignedWithOne(axis, box, others) && !Aligned(axis, box, others[n]) {
        var k: nat :| k < |others| && Aligned(axis, box, others[k]);
        assert Aligned(axis, box, others[..n][k]);
      }
    }
  }

  lemma {:induction false} ShapesAreReal(others: seq<Rect>, r: Rect)
    ensures r in Shapes(others) <==> r in others && !ZeroArea(r)
  {
    if others != [] {
      ShapesAreReal(others[1..], r);
      assert others == [others[0]] + others[1..];
    }
  }

  lemma {:induction false} OverlappingOverlap(axis: Axis, dragged: Rect, shapes: seq<Rect>, r: Rect)
    ensures r in Overlapping(axis, dragged, shapes) <==> r in shapes && Overlaps(axis, dragged, r)
  {
    if shapes != [] {
      OverlappingOverlap(axis, dragged, shapes[1..], r);
      assert shapes == [shapes[0]] + shapes[1..];
    }
  }

  ghost predicate Sorted(axis: Axis, rects: seq<Rect>) {
    forall i, j :: 0 <= i < j < |rects| ==> Lo(axis, rects[i]) <= Lo(axis, rects[j])
  }

  lemma {:induction false} InsertKeeps(axis: Axis, r: Rect, sorted: seq<Rect>)
    ensures multiset(InsertByLo(axis, r, sorted)) == multiset(sorted) + multiset{r}
  {
    if sorted != [] && Lo(axis, r) > Lo(axis, sorted[0]) {
      InsertKeeps(axis, r, sorted[1..]);
      assert sorted == [sorted[0]] + sorted[1..];
    }
  }

  lemma {:induction false} InsertSorts(axis: Axis, r: Rect, sorted: seq<Rect>, floor: real)
    requires Sorted(axis, sorted) && floor <= Lo(axis, r)
    requires forall k :: 0 <= k < |sorted| ==> floor <= Lo(axis, sorted[k])
    ensures Sorted(axis, InsertByLo(axis, r, sorted))
    ensures forall k :: 0 <= k < |InsertByLo(axis, r, sorted)| ==> floor <= Lo(axis, InsertByLo(axis, r, sorted)[k])
  {
    if sorted != [] && Lo(axis, r) > Lo(axis, sorted[0]) {
      InsertSorts(axis, r, sorted[1..], Lo(axis, sorted[0]));
    }
  }

  lemma {:induction false} SortSorts(axis: Axis, rects: seq<Rect>)
    ensures Sorted(axis, SortByLo(axis, rects)) && multiset(SortByLo(axis, rects)) == multiset(rects)
  {
    if rects != [] {
      SortSorts(axis, rects[1..]);
      var rest := SortByLo(axis, rects[1..]);
      InsertKeeps(axis, rects[0], rest);
      var mine := Lo(axis, rects[0]);
      var floor := if rest == [] || mine < Lo(axis, rest[0]) then mine else Lo(axis, rest[0]);
      InsertSorts(axis, rects[0], rest, floor);
      assert rects == [rects[0]] + rects[1..];
    }
  }

  ghost predicate PairGives(axis: Axis, dragged: Rect, sorted: seq<Rect>, at: real, a: nat, b: nat) {
    a < b < |sorted| && at in Targets(Placements(axis, dragged, sorted[a], sorted[b]))
  }

  lemma InTargets(a: seq<Placement>, b: seq<Placement>, at: real)
    ensures at in Targets(a + b) <==> at in Targets(a) || at in Targets(b)
  {
    TargetsConcat(a, b);
  }

  ghost predicate SomeInRow(axis: Axis, dragged: Rect, sorted: seq<Rect>, at: real, i: nat, j: nat) {
    exists b: nat :: j <= b && PairGives(axis, dragged, sorted, at, i, b)
  }

  ghost predicate SomeWithLeft(axis: Axis, dragged: Rect, sorted: seq<Rect>, at: real, a: nat) {
    SomeInRow(axis, dragged, sorted, at, a, a + 1)
  }

  ghost predicate SomePair(axis: Axis, dragged: Rect, sorted: seq<Rect>, at: real, i: nat) {
    exists a: nat :: i <= a && SomeWithLeft(axis, dragged, sorted, at, a)
  }

  lemma RowSplits(axis: Axis, dragged: Rect, sorted: seq<Rect>, at: real, i: nat, j: nat)
    ensures SomeInRow(axis, dragged, sorted, at, i, j)
            <==> PairGives(axis, dragged, sorted, at, i, j) || SomeInRow(axis, dragged, sorted, at, i, j + 1)
  {
  }

  lemma {:induction false} RowSearched(axis: Axis, dragged: Rect, sorted: seq<Rect>, i: nat, j: nat, at: real)
    requires i < j && i < |sorted|
    ensures at in Targets(RowFrom(axis, dragged, sorted, i, j)) <==> SomeInRow(axis, dragged, sorted, at, i, j)
    decreases |sorted| - j
  {
    if j < |sorted| {
      RowSearched(axis, dragged, sorted, i, j + 1, at);
      InTargets(Placements(axis, dragged, sorted[i], sorted[j]), RowFrom(axis, dragged, sorted, i, j + 1), at);
      RowSplits(axis, dragged, sorted, at, i, j);
    }
  }

  lemma PairsSplit(axis: Axis, dragged: Rect, sorted: seq<Rect>, at: real, i: nat)
    ensures SomePair(axis, dragged, sorted, at, i)
            <==> SomeWithLeft(axis, dragged, sorted, at, i) || SomePair(axis, dragged, sorted, at, i + 1)
  {
    if SomePair(axis, dragged, sorted, at, i) {
      var a: nat :| i <= a && SomeWithLeft(axis, dragged, sorted, at, a);
      assert a == i || i + 1 <= a;
    }
  }

  lemma RowWithLeft(axis: Axis, dragged: Rect, sorted: seq<Rect>, i: nat, at: real)
    requires i < |sorted|
    ensures at in Targets(RowFrom(axis, dragged, sorted, i, i + 1)) <==> SomeWithLeft(axis, dragged, sorted, at, i)
  {
    RowSearched(axis, dragged, sorted, i, i + 1, at);
  }

  lemma {:induction false} PairsSearched(axis: Axis, dragged: Rect, sorted: seq<Rect>, i: nat, at: real)
    ensures at in Targets(PlacementsFrom(axis, dragged, sorted, i)) <==> SomePair(axis, dragged, sorted, at, i)
    decreases |sorted| - i
  {
    if i < |sorted| {
      PairsSearched(axis, dragged, sorted, i + 1, at);
      PairsSplit(axis, dragged, sorted, at, i);
      RowWithLeft(axis, dragged, sorted, i, at);
      InTargets(RowFrom(axis, dragged, sorted, i, i + 1), PlacementsFrom(axis, dragged, sorted, i + 1), at);
    }
  }

  lemma PoolMembers(axis: Axis, dragged: Rect, others: seq<Rect>, r: Rect)
    requires |Shapes(others)| <= MAX_SPACING_CANDIDATES
    ensures r in SpacingPool(axis, dragged, others) <==> r in others && !ZeroArea(r) && Overlaps(axis, dragged, r)
  {
    var over := Overlapping(axis, dragged, Shapes(others));
    ShapesAreReal(others, r);
    OverlappingOverlap(axis, dragged, Shapes(others), r);
    SortSorts(axis, over);
    assert r in SortByLo(axis, over) <==> r in multiset(SortByLo(axis, over));
    assert r in over <==> r in multiset(over);
  }

  /** The boxes are not turned inside out: the pair search relies on sorting them by their lower edge. */
  ghost predicate Upright(axis: Axis, others: seq<Rect>) {
    forall k :: 0 <= k < |others| ==> Lo(axis, others[k]) <= Hi(axis, others[k])
  }

  lemma TwoOfThePool(axis: Axis, dragged: Rect, others: seq<Rect>, at: real, a: nat, b: nat)
    requires |Shapes(others)| <= MAX_SPACING_CANDIDATES
    requires PairGives(axis, dragged, SpacingPool(axis, dragged, others), at, a, b)
    ensures EvenWithTwo(axis, MovedTo(axis, dragged, at), others)
  {
    var pool, box := SpacingPool(axis, dragged, others), MovedTo(axis, dragged, at);
    var left, right := pool[a], pool[b];
    assert left in pool && right in pool;
    PoolMembers(axis, dragged, others, left);
    PoolMembers(axis, dragged, others, right);
    PlacementsMakeRows(axis, dragged, left, right, at);
    assert EvenWith(axis, box, left, right);
  }

  lemma PoolSorted(axis: Axis, dragged: Rect, others: seq<Rect>)
    ensures Sorted(axis, SpacingPool(axis, dragged, others))
  {
    SortSorts(axis, Overlapping(axis, dragged, Shapes(others)));
  }

  lemma InOrder(axis: Axis, pool: seq<Rect>, a: nat, b: nat)
    requires Sorted(axis, pool) && a < |pool| && b < |pool| && Lo(axis, pool[a]) < Lo(axis, pool[b])
    ensures a < b
  {
  }

  lemma InPoolOrder(axis: Axis, dragged: Rect, others: seq<Rect>, left: Rect, right: Rect) returns (a: nat, b: nat)
    requires |Shapes(others)| <= MAX_SPACING_CANDIDATES && Upright(axis, others)
    requires left in others && !ZeroArea(left) && Overlaps(axis, dragged, left)
    requires right in others && !ZeroArea(right) && Overlaps(axis, dragged, right)
    requires Eligible(axis, left, right)
    ensures var pool := SpacingPool(axis, dragged, others); a < b < |pool| && pool[a] == left && pool[b] == right
  {
    var pool := SpacingPool(axis, dragged, others);
    PoolMembers(axis, dragged, others, left);
    PoolMembers(axis, dragged, others, right);
    a :| a < |pool| && pool[a] == left;
    b :| b < |pool| && pool[b] == right;
    PoolSorted(axis, dragged, others);
    InOrder(axis, pool, a, b);
  }

  lemma SpacedPairIsSearched(axis: Axis, dragged: Rect, others: seq<Rect>, at: real, left: Rect, right: Rect)
    requires |Shapes(others)| <= MAX_SPACING_CANDIDATES && Upright(axis, others)
    requires left in others && right in others && EvenWith(axis, MovedTo(axis, dragged, at), left, right)
    ensures SomePair(axis, dragged, SpacingPool(axis, dragged, others), at, 0)
  {
    var a, b := InPoolOrder(axis, dragged, others, left, right);
    PlacementsMakeRows(axis, dragged, left, right, at);
    assert PairGives(axis, dragged, SpacingPool(axis, dragged, others), at, a, b);
    assert SomeWithLeft(axis, dragged, SpacingPool(axis, dragged, others), at, a);
  }

  /** The placements searched are the positions evenly spaced with two boxes, however the caller ordered them. */
  lemma PlacementsSpace(axis: Axis, dragged: Rect, others: seq<Rect>, at: real)
    requires |Shapes(others)| <= MAX_SPACING_CANDIDATES && Upright(axis, others)
    ensures at in Targets(AllPlacements(axis, dragged, others))
            <==> EvenWithTwo(axis, MovedTo(axis, dragged, at), others)
  {
    var pool, box := SpacingPool(axis, dragged, others), MovedTo(axis, dragged, at);
    PairsSearched(axis, dragged, pool, 0, at);
    if SomePair(axis, dragged, pool, at, 0) {
      var a: nat :| SomeWithLeft(axis, dragged, pool, at, a);
      var b: nat :| PairGives(axis, dragged, pool, at, a, b);
      TwoOfThePool(axis, dragged, others, at, a, b);
    }
    if EvenWithTwo(axis, box, others) {
      var left, right :| left in others && right in others && EvenWith(axis, box, left, right);
      SpacedPairIsSearched(axis, dragged, others, at, left, right);
    }
  }

  /** A resting place the guides can justify: lined up with some box, or evenly spaced with two. */
  ghost predicate Justified(axis: Axis, dragged: Rect, others: seq<Rect>, at: real) {
    var box := MovedTo(axis, dragged, at);
    || AlignedWithOne(axis, box, others)
    || (|Shapes(others)| <= MAX_SPACING_CANDIDATES && EvenWithTwo(axis, box, others))
  }

  lemma CandidatesAreJustified(axis: Axis, dragged: Rect, others: seq<Rect>, at: real)
    requires Upright(axis, others)
    ensures at in Candidates(axis, dragged, others) <==> Justified(axis, dragged, others, at)
  {
    AllAlignmentsAlign(axis, dragged, others, at);
    if |Shapes(others)| <= MAX_SPACING_CANDIDATES {
      PlacementsSpace(axis, dragged, others, at);
    } else {
      assert Targets(AllPlacements(axis, dragged, others)) == [];
    }
  }

  /** The snapped position is justified and no justified position is nearer; unsnapped, none is near. */
  lemma SnapIsNearestJustified(axis: Axis, dragged: Rect, others: seq<Rect>, threshold: real, at: real, snapped: bool)
    requires Upright(axis, others)
    requires SnapsToNearest(axis, dragged, others, threshold, at, snapped)
    ensures snapped ==> Justified(axis, dragged, others, at) && Abs(Lo(axis, dragged) - at) < threshold
    ensures snapped ==> forall t :: Justified(axis, dragged, others, t) ==>
                                      Abs(Lo(axis, dragged) - at) <= Abs(Lo(axis, dragged) - t)
    ensures !snapped ==> at == Lo(axis, dragged)
    ensures !snapped ==> forall t :: Justified(axis, dragged, others, t) ==> threshold <= Abs(Lo(axis, dragged) - t)
  {
    var list, lo := Candidates(axis, dragged, others), Lo(axis, dragged);
    forall t | Justified(axis, dragged, others, t)
      ensures if snapped then Abs(lo - at) <= Abs(lo - t) else threshold <= Abs(lo - t)
    {
      CandidatesAreJustified(axis, dragged, others, t);
      var i: nat :| i < |list| && list[i] == t;
      if snapped {
        var k: nat :| FirstNearest(list, lo, threshold, k) && list[k] == at;
      }
    }
    if snapped {
      CandidatesAreJustified(axis, dragged, others, at);
    }
  }
}
