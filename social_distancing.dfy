/** The social-distancing demo script: an overlap test for detection boxes, the
    distance between detection centres, the per-stream grouping of a zone status
    packet, and the scan that reports the first pair of people standing too close. */
module SocialDistancing {
  import opened Basics

  /** The name of the zone whose detections the script inspects. */
  const ScreenZone: string := "Screen"

  /** The parts of a BrainFrame detection the script reads: its polygon and its centre. */
  datatype Detection = Detection(coords: seq<Point>, center: Point)

  /** The status of one zone in one stream; `within` lists the detections inside it. */
  datatype ZoneStatus = ZoneStatus(within: seq<Detection>)

  type StreamId = int

  /** One packet of the zone status stream: stream id -> zone name -> status. */
  type ZoneStatusPacket = map<StreamId, map<string, ZoneStatus>>

  /** A reported violation: the pair of detection indices and the squared distance
      that was found below the minimum (0 when the boxes overlap). */
  datatype Violation = Violation(first: nat, second: nat, distanceSq: nat)

  datatype Axis = X | Y

  function Coord(p: Point, a: Axis): int
  {
    match a
    case X => p.x
    case Y => p.y
  }

  /** The script indexes `coords` after sorting, so a detection needs at least one vertex. */
  predicate HasCoords(d: Detection)
  {
    |d.coords| > 0
  }

  /** The list `[c[0] for c in coords]` (or `c[1]`): one coordinate of every vertex. */
  function Projection(coords: seq<Point>, a: Axis): (r: seq<int>)
    ensures |r| == |coords|
    ensures forall k :: 0 <= k < |coords| ==> r[k] == Coord(coords[k], a)
  {
    seq(|coords|, k requires 0 <= k < |coords| => Coord(coords[k], a))
  }

  /** The first element of `sorted(s)`: an element of `s` that no element undercuts. */
  function Least(s: seq<int>): (m: int)
    requires |s| > 0
    ensures m in s
    ensures forall k :: 0 <= k < |s| ==> m <= s[k]
  {
    if |s| == 1 then s[0]
    else
      var rest := Least(s[1..]);
      if s[0] <= rest then s[0] else rest
  }

  /** The last element of `sorted(s)`: an element of `s` that no element exceeds. */
  function Greatest(s: seq<int>): (m: int)
    requires |s| > 0
    ensures m in s
    ensures forall k :: 0 <= k < |s| ==> s[k] <= m
  {
    if |s| == 1 then s[0]
    else
      var rest := Greatest(s[1..]);
      if s[0] >= rest then s[0] else rest
  }

  function Low(d: Detection, a: Axis): int
    requires HasCoords(d)
  {
    Least(Projection(d.coords, a))
  }

  function High(d: Detection, a: Axis): int
    requires HasCoords(d)
  {
    Greatest(Projection(d.coords, a))
  }

  /** `check_overlap`: false when one box lies wholly to one side of the other on the
      x axis, then likewise on the y axis; true otherwise. */
  function CheckOverlap(d1: Detection, d2: Detection): bool
    requires HasCoords(d1) && HasCoords(d2)
  {
    if Low(d1, X) > High(d2, X) || Low(d2, X) > High(d1, X) then false
    else if Low(d1, Y) > High(d2, Y) || Low(d2, Y) > High(d1, Y) then false
    else true
  }

  /** `v` lies between the `a`-coordinates of two vertices of the polygon `coords`. */
  ghost predicate InSpan(coords: seq<Point>, a: Axis, v: int)
  {
    exists i, j :: 0 <= i < |coords| && 0 <= j < |coords| &&
      Coord(coords[i], a) <= v <= Coord(coords[j], a)
  }

  /** `p` lies in the closed axis-aligned bounding rectangle of `d`'s polygon. */
  ghost predicate InBox(d: Detection, p: Point)
  {
    InSpan(d.coords, X, p.x) && InSpan(d.coords, Y, p.y)
  }

  lemma {:induction false} SpanIsBetweenExtremes(d: Detection, a: Axis, v: int)
    requires HasCoords(d)
    ensures InSpan(d.coords, a, v) <==> Low(d, a) <= v <= High(d, a)
  {
    var c, s := d.coords, Projection(d.coords, a);
    if InSpan(c, a, v) {
      var i, j :| 0 <= i < |c| && 0 <= j < |c| && Coord(c[i], a) <= v <= Coord(c[j], a);
      assert Low(d, a) <= s[i] && s[j] <= High(d, a);
    }
    if Low(d, a) <= v <= High(d, a) {
      var i :| 0 <= i < |s| && s[i] == Low(d, a);
      var j :| 0 <= j < |s| && s[j] == High(d, a);
      assert Coord(c[i], a) <= v <= Coord(c[j], a);
    }
  }

  /** `check_overlap` holds exactly when the two boxes' closed bounding rectangles
      share a point: disjoint x- or y-projections give false, and boxes that touch
      along an edge or at a corner overlap. */
  lemma {:induction false} OverlapIffCommonPoint(d1: Detection, d2: Detection)
    requires HasCoords(d1) && HasCoords(d2)
    ensures CheckOverlap(d1, d2) <==> exists p :: InBox(d1, p) && InBox(d2, p)
  {
    if CheckOverlap(d1, d2) {
      var x := if Low(d1, X) <= Low(d2, X) then Low(d2, X) else Low(d1, X);
      var y := if Low(d1, Y) <= Low(d2, Y) then Low(d2, Y) else Low(d1, Y);
      SpanIsBetweenExtremes(d1, X, x);
      SpanIsBetweenExtremes(d2, X, x);
      SpanIsBetweenExtremes(d1, Y, y);
      SpanIsBetweenExtremes(d2, Y, y);
      assert InBox(d1, Point(x, y)) && InBox(d2, Point(x, y));
    } else {
      forall p | true
        ensures !(InBox(d1, p) && InBox(d2, p))
      {
        SpanIsBetweenExtremes(d1, X, p.x);
        SpanIsBetweenExtremes(d2, X, p.x);
        SpanIsBetweenExtremes(d1, Y, p.y);
        SpanIsBetweenExtremes(d2, Y, p.y);
      }
    }
  }

  /** Every box overlaps itself. */
  lemma SelfOverlap(d: Detection)
    requires HasCoords(d)
    ensures CheckOverlap(d, d)
  {
  }

  /** `check_overlap` does not depend on the order of its arguments. */
  lemma OverlapSymmetric(d1: Detection, d2: Detection)
    requires HasCoords(d1) && HasCoords(d2)
    ensures CheckOverlap(d1, d2) == CheckOverlap(d2, d1)
  {
  }

  /** When every vertex of `d` is a vertex of `e`, `e`'s extremes enclose `d`'s. */
  lemma {:induction false} ExtremesOfSubset(d: Detection, e: Detection, a: Axis)
    requires HasCoords(d) && HasCoords(e)
    requires forall p :: p in d.coords ==> p in e.coords
    ensures Low(e, a) <= Low(d, a) && High(d, a) <= High(e, a)
  {
    var s, t := Projection(d.coords, a), Projection(e.coords, a);
    var i :| 0 <= i < |s| && s[i] == Low(d, a);
    assert d.coords[i] in e.coords;
    var i' :| 0 <= i' < |e.coords| && e.coords[i'] == d.coords[i];
    assert t[i'] == s[i];
    var j :| 0 <= j < |s| && s[j] == High(d, a);
    assert d.coords[j] in e.coords;
    var j' :| 0 <= j' < |e.coords| && e.coords[j'] == d.coords[j];
    assert t[j'] == s[j];
  }

  /** Only the set of vertices matters: reordering or repeating the vertices of a
      box's polygon does not change the outcome of `check_overlap`. */
  lemma {:induction false} OverlapIgnoresVertexOrder(d1: Detection, e1: Detection, d2: Detection)
    requires HasCoords(d1) && HasCoords(d2)
    requires forall p :: p in d1.coords <==> p in e1.coords
    ensures HasCoords(e1)
    ensures CheckOverlap(d1, d2) == CheckOverlap(e1, d2)
  {
    assert d1.coords[0] in e1.coords;
    ExtremesOfSubset(d1, e1, X);
    ExtremesOfSubset(e1, d1, X);
    ExtremesOfSubset(d1, e1, Y);
    ExtremesOfSubset(e1, d1, Y);
  }

  /** The square of `get_distance`: the squared Euclidean distance between the centres.
      It is zero exactly when the centres coincide. */
  function SquaredDistance(d1: Detection, d2: Detection): (r: nat)
    ensures r == 0 <==> d1.center == d2.center
  {
    var dx := d1.center.x - d2.center.x;
    var dy := d1.center.y - d2.center.y;
    SquareFacts(dx);
    SquareFacts(dy);
    dx * dx + dy * dy
  }

  lemma SquareFacts(a: int)
    ensures a * a >= 0
    ensures a != 0 ==> a * a > 0
  {
    if a < 0 {
      assert a * a == (-a) * (-a);
    }
  }

  /** The distance between centres is the same measured from either detection. */
  lemma {:induction false} DistanceSymmetric(d1: Detection, d2: Detection)
    ensures SquaredDistance(d1, d2) == SquaredDistance(d2, d1)
  {
    var dx, dy := d1.center.x - d2.center.x, d1.center.y - d2.center.y;
    assert (-dx) * (-dx) == dx * dx;
    assert (-dy) * (-dy) == dy * dy;
  }

  /** `distance < min_distance` for a distance whose square is `sq`. Distances are never
      negative, so nothing is below a minimum that is not positive. */
  predicate Below(sq: nat, minDistance: int)
  {
    0 < minDistance && sq < minDistance * minDistance
  }

  /** Comparing squares is the same as comparing the distance itself: for any
      non-negative real `root` with `root * root == sq`, `root < minDistance` holds
      exactly when `Below(sq, minDistance)` does. */
  lemma BelowMatchesRootComparison(sq: nat, minDistance: int, root: real)
    requires 0.0 <= root && root * root == sq as real
    ensures Below(sq, minDistance) <==> root < minDistance as real
  {
    var m := minDistance as real;
    assert (minDistance * minDistance) as real == m * m;
    if root < m {
      assert root * root <= root * m;
      assert root * m < m * m;
    } else if 0.0 < m {
      assert m * m <= root * m;
      assert root * m <= root * root;
    }
  }

  /** The distance the scan compares: 0 for overlapping boxes, else between centres. */
  function PairDistanceSq(d1: Detection, d2: Detection): nat
    requires HasCoords(d1) && HasCoords(d2)
  {
    if CheckOverlap(d1, d2) then 0 else SquaredDistance(d1, d2)
  }

  predicate AllHaveCoords(detections: seq<Detection>)
  {
    forall k :: 0 <= k < |detections| ==> HasCoords(detections[k])
  }

  /** Detections `i` and `j` of the list are closer than `minDistance`. */
  predicate Violates(detections: seq<Detection>, minDistance: int, i: nat, j: nat)
    requires AllHaveCoords(detections)
    requires i < |detections| && j < |detections|
  {
    Below(PairDistanceSq(detections[i], detections[j]), minDistance)
  }

  /** No pair `(i, j)` with `i < j` is closer than `minDistance`. */
  predicate NoViolation(detections: seq<Detection>, minDistance: int)
    requires AllHaveCoords(detections)
  {
    forall i, j :: 0 <= i < j < |detections| ==> !Violates(detections, minDistance, i, j)
  }

  /** `v` names a violating pair, with its distance, and every pair before it in the
      scan order (by `i`, then by `j`) keeps its distance. */
  predicate IsFirstViolation(detections: seq<Detection>, minDistance: int, v: Violation)
    requires AllHaveCoords(detections)
  {
    && v.first < v.second < |detections|
    && v.distanceSq == PairDistanceSq(detections[v.first], detections[v.second])
    && Violates(detections, minDistance, v.first, v.second)
    && (forall i, j :: 0 <= i < j < |detections| && (i < v.first || (i == v.first && j < v.second))
          ==> !Violates(detections, minDistance, i, j))
  }

  /** The scan of one stream's detections: pairs `(i, j)` with `j > i` are visited in
      order and the scan stops at the first one closer than `minDistance`, which is
      the one reported. Fewer than two detections, or no close pair, reports nothing. */
  method FindViolation(detections: seq<Detection>, minDistance: int) returns (v: Option<Violation>)
    requires AllHaveCoords(detections)
    ensures v.Some? ==> IsFirstViolation(detections, minDistance, v.value)
    ensures v.None? <==> NoViolation(detections, minDistance)
    ensures |detections| < 2 ==> v.None?
  {
    v := None;
    var i := 0;
    while i < |detections|
      invariant 0 <= i <= |detections|
      invariant v.None?
      invariant forall a, b :: 0 <= a < i && a < b < |detections| ==> !Violates(detections, minDistance, a, b)
    {
      var current := detections[i];
      var violating := false;
      var j := i + 1;
      while j < |detections|
        invariant i + 1 <= j <= |detections|
        invariant !violating && v.None?
        invariant forall b :: i < b < j ==> !Violates(detections, minDistance, i, b)
      {
        var target := detections[j];
        var distance := if CheckOverlap(current, target) then 0 else SquaredDistance(current, target);
        if Below(distance, minDistance) {
          v := Some(Violation(i, j, distance));
          violating := true;
          break;
        }
        j := j + 1;
      }
      if violating {
        break;
      }
      i := i + 1;
    }
  }

  /** The dictionary `detections_per_stream`: for every stream that has a zone named
      "Screen", the detections within that zone. */
  function DetectionsPerStream(packet: ZoneStatusPacket): map<StreamId, seq<Detection>>
  {
    map s | s in packet && ScreenZone in packet[s] :: packet[s][ScreenZone].within
  }

  /** A stream gets an entry exactly when it has a "Screen" zone, and the entry is that
      zone's detections. */
  lemma DetectionsPerStreamEntries(packet: ZoneStatusPacket, s: StreamId)
    ensures s in DetectionsPerStream(packet) <==> s in packet && ScreenZone in packet[s]
    ensures s in DetectionsPerStream(packet) ==> DetectionsPerStream(packet)[s] == packet[s][ScreenZone].within
  {
  }

  /** Zones other than "Screen" have no influence on the grouping. */
  lemma DetectionsPerStreamIgnoresOtherZones(p: ZoneStatusPacket, q: ZoneStatusPacket)
    requires p.Keys == q.Keys
    requires forall s :: s in p ==> (ScreenZone in p[s] <==> ScreenZone in q[s])
    requires forall s :: s in p && ScreenZone in p[s] ==> p[s][ScreenZone] == q[s][ScreenZone]
    ensures DetectionsPerStream(p) == DetectionsPerStream(q)
  {
    var dp, dq := DetectionsPerStream(p), DetectionsPerStream(q);
    assert forall s :: s in dp <==> s in dq;
    forall s | s in dp
      ensures dp[s] == dq[s]
    {
    }
  }

  /** A non-empty set of stream ids has an element to pick. */
  lemma NonEmptyHasElement(s: set<StreamId>)
    requires s != {}
    ensures exists x :: x in s
  {
    if forall x :: x !in s {
      assert false;
    }
  }

  /** Every detection the script inspects has at least one vertex. */
  predicate WellFormedPacket(packet: ZoneStatusPacket)
  {
    forall s :: s in packet && ScreenZone in packet[s] ==> AllHaveCoords(packet[s][ScreenZone].within)
  }

  /** One iteration of the loop over the zone status stream: group the packet by
      stream, then scan every stream. A stream appears in the result exactly when its
      scan found a violation, and then with the first one; at most one is reported per
      stream per packet. */
  method CheckPacket(packet: ZoneStatusPacket, minDistance: int) returns (reports: map<StreamId, Violation>)
    requires WellFormedPacket(packet)
    ensures reports.Keys <= DetectionsPerStream(packet).Keys
    ensures forall s :: s in reports ==>
      AllHaveCoords(DetectionsPerStream(packet)[s]) &&
      IsFirstViolation(DetectionsPerStream(packet)[s], minDistance, reports[s])
    ensures forall s :: s in DetectionsPerStream(packet) && s !in reports ==>
      AllHaveCoords(DetectionsPerStream(packet)[s]) &&
      NoViolation(DetectionsPerStream(packet)[s], minDistance)
  {
    var perStream := DetectionsPerStream(packet);
    var remaining := perStream.Keys;
    reports := map[];
    while remaining != {}
      invariant remaining <= perStream.Keys
      invariant reports.Keys <= perStream.Keys
      invariant forall s :: s in perStream ==> AllHaveCoords(perStream[s])
      invariant forall s :: s in reports ==>
        s in perStream && s !in remaining && IsFirstViolation(perStream[s], minDistance, reports[s])
      invariant forall s :: s in perStream && s !in remaining && s !in reports ==>
        NoViolation(perStream[s], minDistance)
      decreases |remaining|
    {
      NonEmptyHasElement(remaining);
      var s :| s in remaining;
      var found := FindViolation(perStream[s], minDistance);
      if found.Some? {
        reports := reports[s := found.value];
      }
      remaining := remaining - {s};
    }
  }

  /** The hard-coded box of the fake detector capsules, and two boxes beside it: one
      sharing its right edge, one a pixel further right. */
  const FakeBox := Detection([Point(10, 10), Point(100, 10), Point(100, 100), Point(10, 100)], Point(55, 55))
  const TouchingBox := Detection([Point(100, 10), Point(190, 100)], Point(145, 55))
  const ApartBox := Detection([Point(101, 10), Point(191, 100)], Point(146, 55))

  lemma FakeBoxExtremes()
    ensures Low(FakeBox, X) == 10 && High(FakeBox, X) == 100
    ensures Low(FakeBox, Y) == 10 && High(FakeBox, Y) == 100
  {
    assert Projection(FakeBox.coords, X) == [10, 100, 100, 10];
    assert Projection(FakeBox.coords, Y) == [10, 10, 100, 100];
  }

  lemma TouchingBoxExtremes()
    ensures Low(TouchingBox, X) == 100
    ensures Low(TouchingBox, Y) == 10 && High(TouchingBox, Y) == 100
  {
    assert Projection(TouchingBox.coords, X) == [100, 190];
    assert Projection(TouchingBox.coords, Y) == [10, 100];
  }

  lemma ApartBoxExtremes()
    ensures Low(ApartBox, X) == 101
  {
    assert Projection(ApartBox.coords, X) == [101, 191];
  }

  /** The fake box overlaps itself and the box sharing its edge, not the box beyond it. */
  lemma FakeBoxExamples()
    ensures CheckOverlap(FakeBox, FakeBox)
    ensures CheckOverlap(FakeBox, TouchingBox)
    ensures !CheckOverlap(FakeBox, ApartBox)
  {
    FakeBoxExtremes();
    TouchingBoxExtremes();
    ApartBoxExtremes();
  }
}
