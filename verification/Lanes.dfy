/** Lane offsets for routes that share street segments (tools/gtfs_to_geojson.py:176-272, 429-453).
    Rounding to a grid, the cosine and the hypotenuse are parameters; numbers are reals. */
module Lanes {
  import opened Wrappers

  const EARTH_METERS_PER_DEG_LAT := 111320.0

  datatype Point = Point(lon: real, lat: real)

  type GridKey = (int, int)

  type SegmentKey = (GridKey, GridKey)

  datatype Geometry = Geometry(snap: Point -> GridKey, cosine: real -> real, hypot: (real, real) -> real)

  type Offsets = map<(SegmentKey, string), real>

  predicate KeyAtMost(a: GridKey, b: GridKey) {
    a.0 < b.0 || (a.0 == b.0 && a.1 <= b.1)
  }

  function MetersPerDegreeLon(g: Geometry, lat: real): (m: real)
    ensures m >= 1.0
  {
    var m := EARTH_METERS_PER_DEG_LAT * g.cosine(lat);
    if m >= 1.0 then m else 1.0
  }

  /** The segment's key and its endpoints in the order of their grid keys. */
  function CanonicalSegment(g: Geometry, start: Point, end: Point): (SegmentKey, Point, Point) {
    var startKey, endKey := g.snap(start), g.snap(end);
    if KeyAtMost(startKey, endKey) then ((startKey, endKey), start, end) else ((endKey, startKey), end, start)
  }

  /** From start to end, in metres. */
  function Direction(g: Geometry, start: Point, end: Point): (real, real) {
    var lat := (start.lat + end.lat) / 2.0;
    ((end.lon - start.lon) * MetersPerDegreeLon(g, lat), (end.lat - start.lat) * EARTH_METERS_PER_DEG_LAT)
  }

  function SegmentNormal(g: Geometry, start: Point, end: Point): Option<(real, real)> {
    var (dx, dy) := Direction(g, start, end);
    var length := g.hypot(dx, dy);
    if length < 0.01 then None else Some((-dy / length, dx / length))
  }

  function ApplyMeterOffset(g: Geometry, p: Point, x: real, y: real): Point {
    Point(p.lon + x / MetersPerDegreeLon(g, p.lat), p.lat + y / EARTH_METERS_PER_DEG_LAT)
  }

  function ShiftOf(offsets: Offsets, key: SegmentKey, route: string): real {
    if (key, route) in offsets then offsets[(key, route)] else 0.0
  }

  function Combined(normal: Option<(real, real)>, shift: real): Option<(real, real)> {
    match normal
    case None => None
    case Some(n) => if (if shift < 0.0 then -shift else shift) > 0.001 then Some((n.0 * shift, n.1 * shift)) else None
  }

  /** How far one segment pushes its two endpoints sideways. */
  function Push(g: Geometry, start: Point, end: Point, route: string, offsets: Offsets): Option<(real, real)> {
    var (key, a, b) := CanonicalSegment(g, start, end);
    Combined(SegmentNormal(g, a, b), ShiftOf(offsets, key, route))
  }

  /** A point moves by the average of the pushes of the segments on either side. */
  function Moved(g: Geometry, p: Point, before: Option<(real, real)>, after: Option<(real, real)>): Point {
    match (before, after)
    case (None, None) => p
    case (Some(a), None) => ApplyMeterOffset(g, p, a.0, a.1)
    case (None, Some(b)) => ApplyMeterOffset(g, p, b.0, b.1)
    case (Some(a), Some(b)) => ApplyMeterOffset(g, p, (a.0 + b.0) / 2.0, (a.1 + b.1) / 2.0)
  }

  function PushAt(g: Geometry, coords: seq<Point>, route: string, offsets: Offsets, i: int): Option<(real, real)> {
    if 0 <= i < |coords| - 1 then Push(g, coords[i], coords[i + 1], route, offsets) else None
  }

  function OffsetAt(g: Geometry, coords: seq<Point>, route: string, offsets: Offsets, i: nat): Point
    requires i < |coords|
  {
    Moved(g, coords[i], PushAt(g, coords, route, offsets, i - 1), PushAt(g, coords, route, offsets, i))
  }

  function Offset(g: Geometry, coords: seq<Point>, route: string, offsets: Offsets): (line: seq<Point>)
    ensures |line| == |coords| && forall i :: 0 <= i < |line| ==> line[i] == OffsetAt(g, coords, route, offsets, i)
  {
    seq(|coords|, i requires 0 <= i < |coords| => OffsetAt(g, coords, route, offsets, i))
  }

  /** Sum up the pushes of both neighbours and divide by how many there are. */
  method MovePoint(g: Geometry, p: Point, before: Option<(real, real)>, after: Option<(real, real)>)
    returns (moved: Point)
    ensures moved == Moved(g, p, before, after)
  {
    hide ApplyMeterOffset;
    var x, y, contributors := 0.0, 0.0, 0;
    if before.Some? {
      x, y, contributors := x + before.value.0, y + before.value.1, contributors + 1;
    }
    if after.Some? {
      x, y, contributors := x + after.value.0, y + after.value.1, contributors + 1;
    }
    if contributors == 0 {
      return p;
    }
    var count := contributors as real;
    if before.Some? && after.Some? {
      assert count == 2.0;
    } else {
      assert count == 1.0 && x / count == x && y / count == y;
    }
    return ApplyMeterOffset(g, p, x / count, y / count);
  }

  method OffsetLinestring(g: Geometry, coords: seq<Point>, route: string, offsets: Offsets) returns (line: seq<Point>)
    ensures line == Offset(g, coords, route, offsets)
  {
    hide SegmentNormal, Combined, CanonicalSegment, Moved;
    if |coords| < 2 {
      if |coords| == 1 { Unmoved(g, coords[0]); }
      assert coords == Offset(g, coords, route, offsets);
      return coords;
    }
    var vectors: seq<Option<(real, real)>>, shifts: seq<real> := [], [];
    for i := 0 to |coords| - 1
      invariant |vectors| == |shifts| == i
      invariant forall k :: 0 <= k < i ==> Combined(vectors[k], shifts[k]) == PushAt(g, coords, route, offsets, k)
    {
      var (key, start, end) := CanonicalSegment(g, coords[i], coords[i + 1]);
      shifts := shifts + [ShiftOf(offsets, key, route)];
      vectors := vectors + [SegmentNormal(g, start, end)];
    }
    line := [];
    for index := 0 to |coords|
      invariant |line| == index
      invariant forall k :: 0 <= k < index ==> line[k] == OffsetAt(g, coords, route, offsets, k)
    {
      var before := if index > 0 then Combined(vectors[index - 1], shifts[index - 1]) else None;
      var after := if index < |coords| - 1 then Combined(vectors[index], shifts[index]) else None;
      var moved := MovePoint(g, coords[index], before, after);
      line := line + [moved];
    }
  }

  lemma Unmoved(g: Geometry, p: Point)
    ensures Moved(g, p, None, None) == p
  {
  }

  // ---- Direction does not matter ----

  function Reverse<T>(s: seq<T>): (r: seq<T>)
    ensures |r| == |s| && forall i :: 0 <= i < |s| ==> r[i] == s[|s| - 1 - i]
  {
    seq(|s|, i requires 0 <= i < |s| => s[|s| - 1 - i])
  }

  /** What reversal relies on of the hypotenuse. */
  ghost predicate EvenHypot(g: Geometry) {
    (forall x, y :: g.hypot(-x, -y) == g.hypot(x, y)) && g.hypot(0.0, 0.0) < 0.01
  }

  predicate SameKeys(g: Geometry, coords: seq<Point>, i: nat)
    requires i + 1 < |coords|
  {
    g.snap(coords[i]) == g.snap(coords[i + 1])
  }

  ghost predicate DistinctSteps(g: Geometry, coords: seq<Point>) {
    forall i: nat :: i + 1 < |coords| ==> !SameKeys(g, coords, i)
  }

  /** A segment whose ends snap to the same key pushes nothing: it is too short or carries no shift. */
  ghost predicate NoLostDirection(g: Geometry, coords: seq<Point>, route: string, offsets: Offsets) {
    forall i: nat :: i + 1 < |coords| && SameKeys(g, coords, i) ==> PushAt(g, coords, route, offsets, i) == None
  }

  lemma PushEitherWay(g: Geometry, a: Point, b: Point, route: string, offsets: Offsets)
    requires g.snap(a) != g.snap(b)
    ensures Push(g, a, b, route, offsets) == Push(g, b, a, route, offsets)
  {
    hide SegmentNormal, Combined;
    assert CanonicalSegment(g, a, b) == CanonicalSegment(g, b, a);
  }

  function Opposite(v: Option<(real, real)>): Option<(real, real)> {
    match v
    case None => None
    case Some(n) => Some((-n.0, -n.1))
  }

  lemma NegateProduct(a: real, b: real)
    ensures (-a) * b == -(a * b)
  {
  }

  lemma NegateQuotient(a: real, b: real)
    requires b != 0.0
    ensures (-a) / b == -(a / b)
  {
  }

  lemma EvenAt(g: Geometry, x: real, y: real)
    requires EvenHypot(g)
    ensures g.hypot(-x, -y) == g.hypot(x, y) && (g.hypot(x, y) >= 0.01 ==> x != 0.0 || y != 0.0)
  {
  }

  lemma NormalIs(g: Geometry, a: Point, b: Point, dx: real, dy: real)
    requires dx == Direction(g, a, b).0 && dy == Direction(g, a, b).1
    ensures var normal, length := SegmentNormal(g, a, b), g.hypot(dx, dy);
            && (normal.Some? <==> length >= 0.01)
            && (normal.Some? ==> normal.value.0 == -dy / length && normal.value.1 == dx / length)
  {
    hide Direction;
  }

  lemma DirectionFlips(g: Geometry, a: Point, b: Point)
    ensures Direction(g, b, a).0 == -Direction(g, a, b).0 && Direction(g, b, a).1 == -Direction(g, a, b).1
  {
    hide MetersPerDegreeLon;
    NegateProduct(b.lon - a.lon, MetersPerDegreeLon(g, (a.lat + b.lat) / 2.0));
  }

  /** The normal follows the direction of travel, and is never zero. */
  lemma NormalFlips(g: Geometry, a: Point, b: Point)
    requires EvenHypot(g)
    ensures SegmentNormal(g, b, a) == Opposite(SegmentNormal(g, a, b))
    ensures SegmentNormal(g, a, b) != Some((0.0, 0.0))
  {
    hide SegmentNormal, EvenHypot, Direction;
    var (dx, dy) := Direction(g, a, b);
    DirectionFlips(g, a, b);
    NormalIs(g, a, b, dx, dy);
    NormalIs(g, b, a, -dx, -dy);
    EvenAt(g, dx, dy);
    var there, back := SegmentNormal(g, a, b), SegmentNormal(g, b, a);
    if there.Some? {
      var length := g.hypot(dx, dy);
      NegateQuotient(dx, length);
      NegateQuotient(dy, length);
      assert back.value.0 == -there.value.0 && back.value.1 == -there.value.1;
      if there.value.0 == 0.0 && there.value.1 == 0.0 {
        ZeroQuotient(dx, length);
        ZeroQuotient(dy, length);
      }
    }
  }

  lemma ZeroQuotient(a: real, b: real)
    requires b != 0.0 && a / b == 0.0
    ensures a == 0.0
  {
    assert a == a / b * b;
  }

  lemma CombinedFlips(normal: Option<(real, real)>, shift: real)
    ensures Combined(Opposite(normal), shift) == Opposite(Combined(normal, shift))
  {
    match normal {
      case None =>
      case Some((x, y)) =>
        var back := Combined(Opposite(normal), shift);
        if back.Some? {
          NegateProduct(x, shift);
          NegateProduct(y, shift);
          var u, v := -(x * shift), -(y * shift);
          assert back.value.0 == u && back.value.1 == v;
          assert back.value == (u, v);
          var there := Opposite(Combined(normal, shift)).value;
          assert there.0 == u && there.1 == v;
          assert there == (u, v);
        }
    }
  }

  lemma CombinedIsNotZero(normal: Option<(real, real)>, shift: real)
    requires normal != Some((0.0, 0.0))
    ensures Combined(normal, shift) != Some((0.0, 0.0))
  {
    if normal.Some? && shift != 0.0 {
      ZeroProduct(normal.value.0, shift);
      ZeroProduct(normal.value.1, shift);
    }
  }

  lemma ZeroProduct(a: real, b: real)
    requires b != 0.0
    ensures a * b == 0.0 ==> a == 0.0
  {
    assert a == a * b / b;
  }

  /** With equal keys the push follows the direction of travel. */
  lemma PushFlips(g: Geometry, a: Point, b: Point, route: string, offsets: Offsets)
    requires EvenHypot(g) && g.snap(a) == g.snap(b)
    ensures Push(g, b, a, route, offsets) == Opposite(Push(g, a, b, route, offsets))
    ensures Push(g, a, b, route, offsets) != Some((0.0, 0.0))
  {
    hide SegmentNormal, Combined, EvenHypot;
    NormalFlips(g, a, b);
    CombinedFlips(SegmentNormal(g, a, b), ShiftOf(offsets, (g.snap(a), g.snap(b)), route));
    CombinedIsNotZero(SegmentNormal(g, a, b), ShiftOf(offsets, (g.snap(a), g.snap(b)), route));
  }

  lemma MovedEitherWay(g: Geometry, p: Point, a: Option<(real, real)>, b: Option<(real, real)>)
    ensures Moved(g, p, a, b) == Moved(g, p, b, a)
  {
    hide ApplyMeterOffset;
    if a.Some? && b.Some? {
      assert a.value.0 + b.value.0 == b.value.0 + a.value.0 && a.value.1 + b.value.1 == b.value.1 + a.value.1;
    }
  }

  /** The segments of the reversed line are those of the line, travelled the other way. */
  lemma PushOfReversed(g: Geometry, coords: seq<Point>, route: string, offsets: Offsets, k: nat)
    requires k + 1 < |coords|
    ensures PushAt(g, Reverse(coords), route, offsets, |coords| - 2 - k) ==
              Push(g, coords[k + 1], coords[k], route, offsets)
    ensures PushAt(g, coords, route, offsets, k) == Push(g, coords[k], coords[k + 1], route, offsets)
  {
    hide Push;
  }

  lemma PushReversed(g: Geometry, coords: seq<Point>, route: string, offsets: Offsets, k: int)
    requires 0 <= k < |coords| - 1 ==>
               !SameKeys(g, coords, k) || (EvenHypot(g) && PushAt(g, coords, route, offsets, k) == None)
    ensures PushAt(g, Reverse(coords), route, offsets, |coords| - 2 - k) == PushAt(g, coords, route, offsets, k)
  {
    hide Push;
    if 0 <= k < |coords| - 1 {
      PushOfReversed(g, coords, route, offsets, k);
      if SameKeys(g, coords, k) {
        PushFlips(g, coords[k], coords[k + 1], route, offsets);
      } else {
        PushEitherWay(g, coords[k], coords[k + 1], route, offsets);
      }
    }
  }

  lemma OffsetReversed(g: Geometry, coords: seq<Point>, route: string, offsets: Offsets, k: nat)
    requires DistinctSteps(g, coords) || (EvenHypot(g) && NoLostDirection(g, coords, route, offsets))
    requires k < |coords|
    ensures OffsetAt(g, Reverse(coords), route, offsets, |coords| - 1 - k) == OffsetAt(g, coords, route, offsets, k)
  {
    hide PushAt, Moved, SameKeys, EvenHypot;
    PushReversed(g, coords, route, offsets, k);
    PushReversed(g, coords, route, offsets, k - 1);
    MovedEitherWay(g, coords[k], PushAt(g, coords, route, offsets, k - 1), PushAt(g, coords, route, offsets, k));
  }

  lemma SameQuotient(a: real, b: real, m: real)
    requires m >= 1.0 && a / m == b / m
    ensures a == b
  {
    assert a == a / m * m && b == b / m * m;
  }

  lemma ApplyDiffers(g: Geometry, p: Point, x: real, y: real, u: real, v: real)
    requires ApplyMeterOffset(g, p, x, y) == ApplyMeterOffset(g, p, u, v)
    ensures x == u && y == v
  {
    hide MetersPerDegreeLon;
    SameQuotient(x, u, MetersPerDegreeLon(g, p.lat));
    SameQuotient(y, v, EARTH_METERS_PER_DEG_LAT);
  }

  /** Whatever the segment before pushes, a push and its opposite move the point to different places. */
  lemma MovedApart(g: Geometry, p: Point, before: Option<(real, real)>, v: (real, real))
    requires v != (0.0, 0.0)
    ensures Moved(g, p, before, Some(v)) != Moved(g, p, Some((-v.0, -v.1)), before)
  {
    hide ApplyMeterOffset;
    if Moved(g, p, before, Some(v)) == Moved(g, p, Some((-v.0, -v.1)), before) {
      match before {
        case None => ApplyDiffers(g, p, v.0, v.1, -v.0, -v.1);
        case Some(u) =>
          ApplyDiffers(g, p, (u.0 + v.0) / 2.0, (u.1 + v.1) / 2.0, (-v.0 + u.0) / 2.0, (-v.1 + u.1) / 2.0);
      }
    }
  }

  lemma {:induction false} FirstLostDirection(g: Geometry, coords: seq<Point>, route: string, offsets: Offsets, k: nat)
    returns (first: nat)
    requires k + 1 < |coords| && SameKeys(g, coords, k) && PushAt(g, coords, route, offsets, k) != None
    ensures first + 1 < |coords| && SameKeys(g, coords, first) && PushAt(g, coords, route, offsets, first) != None
    ensures forall i: nat :: i < first && SameKeys(g, coords, i) ==> PushAt(g, coords, route, offsets, i) == None
  {
    hide PushAt, SameKeys;
    if i: nat :| i < k && SameKeys(g, coords, i) && PushAt(g, coords, route, offsets, i) != None {
      first := FirstLostDirection(g, coords, route, offsets, i);
    } else {
      first := k;
    }
  }

  /** The start of the first segment that loses its direction ends up elsewhere. */
  lemma LostDirectionShows(g: Geometry, coords: seq<Point>, route: string, offsets: Offsets)
    requires EvenHypot(g) && !NoLostDirection(g, coords, route, offsets)
    ensures Offset(g, Reverse(coords), route, offsets) != Reverse(Offset(g, coords, route, offsets))
  {
    hide PushAt, Moved, SameKeys, EvenHypot, Push;
    var i: nat :| i + 1 < |coords| && SameKeys(g, coords, i) && PushAt(g, coords, route, offsets, i) != None;
    var k := FirstLostDirection(g, coords, route, offsets, i);
    PushOfReversed(g, coords, route, offsets, k);
    assert g.snap(coords[k]) == g.snap(coords[k + 1]) by { KeysOf(g, coords, k); }
    PushFlips(g, coords[k], coords[k + 1], route, offsets);
    var before := (k as int) - 1;
    PushReversed(g, coords, route, offsets, before);
    var v := PushAt(g, coords, route, offsets, k).value;
    MovedApart(g, coords[k], PushAt(g, coords, route, offsets, before), v);
    var there, back := Offset(g, coords, route, offsets), Offset(g, Reverse(coords), route, offsets);
    assert Reverse(there)[|coords| - 1 - k] == there[k];
    assert back[|coords| - 1 - k] != there[k];
  }

  lemma KeysOf(g: Geometry, coords: seq<Point>, k: nat)
    requires k + 1 < |coords| && SameKeys(g, coords, k)
    ensures g.snap(coords[k]) == g.snap(coords[k + 1])
  {
  }

  lemma DistinctIsFine(g: Geometry, coords: seq<Point>, route: string, offsets: Offsets)
    requires DistinctSteps(g, coords)
    ensures NoLostDirection(g, coords, route, offsets)
  {
  }

  /** Offsetting a line digitised the other way round gives the same line the other way round exactly
      when no segment with equal keys pushes anything; distinct keys at every step are enough. */
  lemma ReversalCommutes(g: Geometry, coords: seq<Point>, route: string, offsets: Offsets)
    ensures EvenHypot(g) ==>
              (Offset(g, Reverse(coords), route, offsets) == Reverse(Offset(g, coords, route, offsets)) <==>
                 NoLostDirection(g, coords, route, offsets))
    ensures DistinctSteps(g, coords) ==>
              Offset(g, Reverse(coords), route, offsets) == Reverse(Offset(g, coords, route, offsets))
  {
    hide OffsetAt, DistinctSteps, NoLostDirection, EvenHypot;
    var there, back := Offset(g, coords, route, offsets), Offset(g, Reverse(coords), route, offsets);
    if DistinctSteps(g, coords) { DistinctIsFine(g, coords, route, offsets); }
    if DistinctSteps(g, coords) || (EvenHypot(g) && NoLostDirection(g, coords, route, offsets)) {
      forall i | 0 <= i < |coords| ensures back[i] == there[|coords| - 1 - i] {
        OffsetReversed(g, coords, route, offsets, |coords| - 1 - i);
      }
      assert back == Reverse(there);
    } else if EvenHypot(g) {
      LostDirectionShows(g, coords, route, offsets);
    }
  }

  // ---- Two points closer than the grid ----

  /** Rounding to five decimals, ties to even, as a number of grid steps. */
  function Rounded(x: real): int {
    var steps := x * 100000.0;
    var low := steps.Floor;
    var rest := steps - low as real;
    if rest < 0.5 || (rest == 0.5 && low % 2 == 0) then low else low + 1
  }

  ghost predicate FiveDecimals(g: Geometry) {
    forall p :: g.snap(p) == (Rounded(p.lon), Rounded(p.lat))
  }

  ghost predicate Euclidean(g: Geometry) {
    forall x, y :: g.hypot(x, y) >= 0.0 && g.hypot(x, y) * g.hypot(x, y) == x * x + y * y
  }

  lemma SameRoot(a: real, b: real)
    requires a >= 0.0 && b >= 0.0 && a * a == b * b
    ensures a == b
  {
    assert (a - b) * (a + b) == 0.0;
    if a + b != 0.0 { ZeroProduct(a - b, a + b); }
  }

  lemma EuclideanIsEven(g: Geometry)
    requires Euclidean(g)
    ensures EvenHypot(g)
  {
    forall x, y ensures g.hypot(-x, -y) == g.hypot(x, y) {
      assert (-x) * (-x) == x * x && (-y) * (-y) == y * y;
      SameRoot(g.hypot(-x, -y), g.hypot(x, y));
    }
    SameRoot(g.hypot(0.0, 0.0), 0.0);
  }

  /** Whatever the cosine: the second point lies 0.000004 degrees north of the first, the two have one
      key, and a shift of six metres moves the reversed line to the other side. */
  lemma SameKeysBreakReversal(g: Geometry)
    requires FiveDecimals(g) && Euclidean(g)
    ensures var coords := [Point(0.0, 0.0), Point(0.0, 0.000004)];
            var offsets: Offsets := map[(((0, 0), (0, 0)), "r") := 6.0];
            Offset(g, Reverse(coords), "r", offsets) != Reverse(Offset(g, coords, "r", offsets))
  {
    hide Offset, Combined, MetersPerDegreeLon, SegmentNormal;
    var p, q := Point(0.0, 0.0), Point(0.0, 0.000004);
    var coords := [p, q];
    var offsets: Offsets := map[(((0, 0), (0, 0)), "r") := 6.0];
    EuclideanIsEven(g);
    ShortStep(g);
    assert SameKeys(g, coords, 0);
    assert PushAt(g, coords, "r", offsets, 0) == Push(g, p, q, "r", offsets) == Combined(SegmentNormal(g, p, q), 6.0);
    PushSome(SegmentNormal(g, p, q).value, 6.0);
    LostDirectionShows(g, coords, "r", offsets);
  }

  lemma PushSome(n: (real, real), shift: real)
    requires shift > 1.0
    ensures Combined(Some(n), shift).Some?
  {
  }

  lemma ShortStep(g: Geometry)
    requires FiveDecimals(g) && Euclidean(g)
    ensures g.snap(Point(0.0, 0.0)) == (0, 0) == g.snap(Point(0.0, 0.000004))
    ensures SegmentNormal(g, Point(0.0, 0.0), Point(0.0, 0.000004)).Some?
  {
    hide MetersPerDegreeLon;
    var p, q := Point(0.0, 0.0), Point(0.0, 0.000004);
    var m := MetersPerDegreeLon(g, (p.lat + q.lat) / 2.0);
    assert (q.lon - p.lon) * m == 0.0;
    var dy := (q.lat - p.lat) * EARTH_METERS_PER_DEG_LAT;
    assert dy == 0.44528;
    SameRoot(g.hypot(0.0, dy), dy);
  }

  // ---- Where a line ends up, in metres ----

  lemma ProductPositive(a: real, b: real, c: real)
    requires a > 0.0 && c == a * b
    ensures c > 0.0 <==> b > 0.0
  {
  }

  lemma SquareOfProduct(c: real, a: real, b: real, square: real)
    requires square == b * b && c == a * b
    ensures c * c == (a * a) * square
  {
    assert c * c == c * a * b;
    assert c * a == a * a * b;
  }

  lemma SumIsOne(a: real, b: real, m: real, p: real, q: real)
    requires m > 0.0 && p == a * m && q == b * m && p + q == m
    ensures a + b == 1.0
  {
    var c := a + b - 1.0;
    assert c * m == 0.0;
    ZeroProduct(c, m);
  }

  lemma NormIsOne(x: real, y: real, length: real, u: real, v: real)
    requires length > 0.0 && u == x * length && v == y * length && u * u + v * v == length * length
    ensures x * x + y * y == 1.0
  {
    var square, p, q := length * length, u * u, v * v;
    assert square > 0.0 by { ProductPositive(length, length, square); }
    var a, b := x * x, y * y;
    assert p == a * square by { SquareOfProduct(u, x, length, square); }
    assert q == b * square by { SquareOfProduct(v, y, length, square); }
    SumIsOne(a, b, square, p, q);
  }

  lemma QuotientTimes(a: real, b: real)
    requires b != 0.0
    ensures a / b * b == a
  {
  }

  lemma Perpendicular(x: real, y: real, length: real, u: real, v: real)
    requires u == x * length && v == y * length
    ensures x * v - y * u == 0.0 && v * y + u * x == (x * x + y * y) * length
  {
  }

  lemma UnitNormal(dx: real, dy: real, length: real)
    requires length > 0.0 && length * length == dx * dx + dy * dy
    ensures var x, y := -dy / length, dx / length;
            x * dx + y * dy == 0.0 && x * x + y * y == 1.0 && dx * y - dy * x == length
  {
    var u := -dy;
    var x, y := u / length, dx / length;
    QuotientTimes(u, length);
    QuotientTimes(dx, length);
    NegateProduct(dy, -dy);
    NegateProduct(dy, dy);
    NegateProduct(dy, y);
    NegateProduct(dy, x);
    NormIsOne(x, y, length, u, dx);
    Perpendicular(x, y, length, u, dx);
  }

  lemma ScaledNormal(dx: real, dy: real, x: real, y: real, length: real, shift: real)
    requires x * dx + y * dy == 0.0 && x * x + y * y == 1.0 && dx * y - dy * x == length
    ensures x * shift * dx + y * shift * dy == 0.0
    ensures x * shift * (x * shift) + y * shift * (y * shift) == shift * shift
    ensures dx * (y * shift) - dy * (x * shift) == length * shift
  {
    assert x * shift * dx + y * shift * dy == (x * dx + y * dy) * shift;
    assert x * shift * (x * shift) + y * shift * (y * shift) == (x * x + y * y) * (shift * shift);
    assert dx * (y * shift) - dy * (x * shift) == (dx * y - dy * x) * shift;
  }

  lemma LengthLimit(x: real, limit: real)
    requires x >= 0.0 && limit > 0.0
    ensures x < limit <==> x * x < limit * limit
  {
    assert (x + limit) * (limit - x) == limit * limit - x * x;
    ProductPositive(x + limit, limit - x, limit * limit - x * x);
  }

  /** What the push of a segment is to its direction and shift. */
  ghost predicate Sideways(dx: real, dy: real, shift: real, push: Option<(real, real)>) {
    && (push == None <==> dx * dx + dy * dy < 0.0001 || -0.001 <= shift <= 0.001)
    && (push.Some? ==>
          && push.value.0 * dx + push.value.1 * dy == 0.0
          && push.value.0 * push.value.0 + push.value.1 * push.value.1 == shift * shift
          && (dx * push.value.1 - dy * push.value.0 > 0.0 <==> shift > 0.0))
  }

  lemma CombinedIsSideways(dx: real, dy: real, length: real, normal: Option<(real, real)>, shift: real)
    requires length >= 0.0 && length * length == dx * dx + dy * dy
    requires normal.Some? <==> length >= 0.01
    requires normal.Some? ==> normal.value.0 == -dy / length && normal.value.1 == dx / length
    ensures Sideways(dx, dy, shift, Combined(normal, shift))
  {
    LengthLimit(length, 0.01);
    if length >= 0.01 {
      UnitNormal(dx, dy, length);
      ScaledIsSideways(dx, dy, normal.value.0, normal.value.1, length, shift);
    }
  }

  lemma ScaledIsSideways(dx: real, dy: real, x: real, y: real, length: real, shift: real)
    requires length > 0.0 && dx * dx + dy * dy >= 0.0001
    requires x * dx + y * dy == 0.0 && x * x + y * y == 1.0 && dx * y - dy * x == length
    ensures Sideways(dx, dy, shift, Combined(Some((x, y)), shift))
  {
    var v := (x * shift, y * shift);
    ScaledNormal(dx, dy, x, y, length, shift);
    ProductPositive(length, shift, length * shift);
    assert v.0 * dx + v.1 * dy == 0.0;
    assert v.0 * v.0 + v.1 * v.1 == shift * shift;
    assert dx * v.1 - dy * v.0 > 0.0 <==> shift > 0.0;
  }

  /** A push is at right angles to its segment, as long as the shift, and to the left of the direction from
      the smaller grid key to the larger for a positive shift, to the right for a negative one. Only a segment
      under a centimetre or a shift of at most a millimetre pushes nothing. */
  lemma PushIsSideways(g: Geometry, start: Point, end: Point, route: string, offsets: Offsets)
    returns (a: Point, b: Point, dx: real, dy: real, shift: real)
    requires Euclidean(g)
    ensures var k, l := g.snap(start), g.snap(end);
            (a, b) == if k.0 < l.0 || (k.0 == l.0 && k.1 <= l.1) then (start, end) else (end, start)
    ensures var scale := 111320.0 * g.cosine((a.lat + b.lat) / 2.0);
            dx == (b.lon - a.lon) * (if scale >= 1.0 then scale else 1.0) && dy == (b.lat - a.lat) * 111320.0
    ensures var key := ((g.snap(a), g.snap(b)), route);
            shift == if key in offsets then offsets[key] else 0.0
    ensures Sideways(dx, dy, shift, Push(g, start, end, route, offsets))
  {
    hide Direction, Combined, Sideways, Euclidean, SegmentNormal;
    var (segment, first, last) := CanonicalSegment(g, start, end);
    a, b, shift := first, last, ShiftOf(offsets, segment, route);
    dx, dy := Direction(g, a, b).0, Direction(g, a, b).1;
    DirectionIs(g, a, b);
    SidewaysOf(g, a, b, dx, dy, shift);
  }

  lemma SidewaysOf(g: Geometry, a: Point, b: Point, dx: real, dy: real, shift: real)
    requires Euclidean(g) && dx == Direction(g, a, b).0 && dy == Direction(g, a, b).1
    ensures Sideways(dx, dy, shift, Combined(SegmentNormal(g, a, b), shift))
  {
    hide Direction, Combined, Sideways, Euclidean, SegmentNormal;
    HypotIs(g, dx, dy);
    NormalIs(g, a, b, dx, dy);
    CombinedIsSideways(dx, dy, g.hypot(dx, dy), SegmentNormal(g, a, b), shift);
  }

  lemma DirectionIs(g: Geometry, a: Point, b: Point)
    ensures var scale := 111320.0 * g.cosine((a.lat + b.lat) / 2.0);
            && Direction(g, a, b).0 == (b.lon - a.lon) * (if scale >= 1.0 then scale else 1.0)
            && Direction(g, a, b).1 == (b.lat - a.lat) * 111320.0
  {
  }

  lemma HypotIs(g: Geometry, x: real, y: real)
    requires Euclidean(g)
    ensures g.hypot(x, y) >= 0.0 && g.hypot(x, y) * g.hypot(x, y) == x * x + y * y
  {
  }

  lemma MetersAre(g: Geometry, lat: real)
    ensures var scale := 111320.0 * g.cosine(lat);
            MetersPerDegreeLon(g, lat) == if scale >= 1.0 then scale else 1.0
  {
  }

  /** From p to q it is x metres east and y metres north. */
  predicate Displaced(g: Geometry, p: Point, q: Point, x: real, y: real) {
    var scale := 111320.0 * g.cosine(p.lat);
    (q.lon - p.lon) * (if scale >= 1.0 then scale else 1.0) == x && (q.lat - p.lat) * 111320.0 == y
  }

  lemma MetresBack(p: real, d: real, m: real, x: real)
    requires d * m == x
    ensures (p + d - p) * m == x
  {
    assert p + d - p == d;
  }

  lemma ApplyDisplaces(g: Geometry, p: Point, x: real, y: real)
    ensures Displaced(g, p, ApplyMeterOffset(g, p, x, y), x, y)
  {
    hide MetersPerDegreeLon;
    MetersAre(g, p.lat);
    var m := MetersPerDegreeLon(g, p.lat);
    QuotientTimes(x, m);
    QuotientTimes(y, EARTH_METERS_PER_DEG_LAT);
    MetresBack(p.lon, x / m, m, x);
    MetresBack(p.lat, y / EARTH_METERS_PER_DEG_LAT, EARTH_METERS_PER_DEG_LAT, y);
  }

  /** The ends of a line are displaced by exactly the push of their one segment. */
  lemma EndsMove(g: Geometry, coords: seq<Point>, route: string, offsets: Offsets)
    requires |coords| >= 2
    ensures var n, line := |coords| - 1, Offset(g, coords, route, offsets);
            var first := Push(g, coords[0], coords[1], route, offsets);
            var last := Push(g, coords[n - 1], coords[n], route, offsets);
            && (first == None ==> line[0] == coords[0])
            && (first.Some? ==> Displaced(g, coords[0], line[0], first.value.0, first.value.1))
            && (last == None ==> line[n] == coords[n])
            && (last.Some? ==> Displaced(g, coords[n], line[n], last.value.0, last.value.1))
  {
    hide Push, ApplyMeterOffset, Displaced;
    var n := |coords| - 1;
    var first, last := Push(g, coords[0], coords[1], route, offsets), Push(g, coords[n - 1], coords[n], route, offsets);
    assert PushAt(g, coords, route, offsets, -1) == None && PushAt(g, coords, route, offsets, n) == None;
    assert PushAt(g, coords, route, offsets, 0) == first && PushAt(g, coords, route, offsets, n - 1) == last;
    if first.Some? { ApplyDisplaces(g, coords[0], first.value.0, first.value.1); }
    if last.Some? { ApplyDisplaces(g, coords[n], last.value.0, last.value.1); }
  }

  /** A point between two segments is displaced by the mean of their pushes, by the one push if only one
      of them pushes, and not at all if neither does. */
  lemma InnerMoves(g: Geometry, coords: seq<Point>, route: string, offsets: Offsets, i: nat)
    requires 0 < i < |coords| - 1
    ensures var p, q := coords[i], Offset(g, coords, route, offsets)[i];
            var u := Push(g, coords[i - 1], coords[i], route, offsets);
            var v := Push(g, coords[i], coords[i + 1], route, offsets);
            && (u == None && v == None ==> q == p)
            && (u.Some? && v == None ==> Displaced(g, p, q, u.value.0, u.value.1))
            && (u == None && v.Some? ==> Displaced(g, p, q, v.value.0, v.value.1))
            && (u.Some? && v.Some? ==>
                  Displaced(g, p, q, (u.value.0 + v.value.0) / 2.0, (u.value.1 + v.value.1) / 2.0))
  {
    hide Push, ApplyMeterOffset, Displaced;
    var u := Push(g, coords[i - 1], coords[i], route, offsets);
    var v := Push(g, coords[i], coords[i + 1], route, offsets);
    assert PushAt(g, coords, route, offsets, i - 1) == u && PushAt(g, coords, route, offsets, i) == v;
    if u.Some? { ApplyDisplaces(g, coords[i], u.value.0, u.value.1); }
    if v.Some? { ApplyDisplaces(g, coords[i], v.value.0, v.value.1); }
    if u.Some? && v.Some? {
      ApplyDisplaces(g, coords[i], (u.value.0 + v.value.0) / 2.0, (u.value.1 + v.value.1) / 2.0);
    }
  }

  /** A line due north with a shift of six metres moves six metres west. */
  lemma NorthMovesWest(g: Geometry)
    requires FiveDecimals(g) && Euclidean(g)
    ensures var coords := [Point(0.0, 0.0), Point(0.0, 0.001)];
            var offsets: Offsets := map[(((0, 0), (0, 100)), "r") := 6.0];
            var line := Offset(g, coords, "r", offsets);
            Displaced(g, coords[0], line[0], -6.0, 0.0) && Displaced(g, coords[1], line[1], -6.0, 0.0)
  {
    hide Offset, Displaced, Direction, SegmentNormal, Combined;
    var p, q := Point(0.0, 0.0), Point(0.0, 0.001);
    var offsets: Offsets := map[(((0, 0), (0, 100)), "r") := 6.0];
    assert g.snap(p) == (0, 0) && g.snap(q) == (0, 100);
    DirectionIs(g, p, q);
    var dy := (q.lat - p.lat) * EARTH_METERS_PER_DEG_LAT;
    SameRoot(g.hypot(0.0, dy), dy);
    NormalIs(g, p, q, 0.0, dy);
    var normal := SegmentNormal(g, p, q);
    assert normal.value.0 == -1.0 && normal.value.1 == 0.0;
    assert Push(g, p, q, "r", offsets) == Combined(normal, 6.0);
    SixMetres(normal.value);
    EndsMove(g, [p, q], "r", offsets);
  }

  lemma SixMetres(n: (real, real))
    ensures Combined(Some(n), 6.0).Some?
    ensures Combined(Some(n), 6.0).value.0 == 6.0 * n.0 && Combined(Some(n), 6.0).value.1 == 6.0 * n.1
  {
  }

  // ---- Lanes ----

  datatype Route = Route(id: string, color: string, sortKey: int)

  datatype Group = Group(color: string, routes: seq<string>)

  /** Runs of equal colour in the ordered routes of a segment. */
  function Groups(items: seq<Route>): seq<Group> {
    if items == [] then []
    else
      var n := |items| - 1;
      var rest := Groups(items[..n]);
      if rest != [] && rest[|rest| - 1].color == items[n].color then
        rest[|rest| - 1 := Group(items[n].color, rest[|rest| - 1].routes + [items[n].id])]
      else rest + [Group(items[n].color, [items[n].id])]
  }

  function HighestRank(items: seq<Route>): int
    requires items != []
  {
    var n := |items| - 1;
    if n == 0 || HighestRank(items[..n]) < items[n].sortKey then items[n].sortKey else HighestRank(items[..n])
  }

  function SegmentSpacing(items: seq<Route>): real
    requires items != []
  {
    var highest := HighestRank(items);
    if highest >= 320 then 9.0 else if highest >= 200 then 7.0 else 6.0
  }

  lemma {:induction false} HighestRankIs(items: seq<Route>, limit: int)
    requires items != []
    ensures HighestRank(items) >= limit <==> exists i :: 0 <= i < |items| && items[i].sortKey >= limit
  {
    var n := |items| - 1;
    if n > 0 {
      HighestRankIs(items[..n], limit);
      assert forall i :: 0 <= i < n ==> items[..n][i] == items[i];
    }
  }

  /** Nine metres if some route of the segment ranks 320 or more, seven if some ranks 200 or more, else six. */
  lemma SpacingByRank(items: seq<Route>)
    requires items != []
    ensures SegmentSpacing(items) == 9.0 <==> exists i :: 0 <= i < |items| && items[i].sortKey >= 320
    ensures SegmentSpacing(items) != 6.0 <==> exists i :: 0 <= i < |items| && items[i].sortKey >= 200
    ensures SegmentSpacing(items) in {6.0, 7.0, 9.0}
  {
    hide HighestRank;
    HighestRankIs(items, 320);
    HighestRankIs(items, 200);
  }

  function Shift(index: int, count: nat, spacing: real): real {
    (index as real - (count as real - 1.0) / 2.0) * spacing
  }

  ghost function ShiftSum(n: nat, count: nat, spacing: real): real {
    if n == 0 then 0.0 else ShiftSum(n - 1, count, spacing) + Shift(n - 1, count, spacing)
  }

  lemma {:induction false} ShiftSumIs(n: nat, count: nat, spacing: real)
    ensures ShiftSum(n, count, spacing) == (n as real) * (n as real - count as real) / 2.0 * spacing
  {
    if n > 0 {
      ShiftSumIs(n - 1, count, spacing);
      var x, c := n as real, count as real;
      assert (n - 1) as real == x - 1.0;
      assert (x - 1.0) * (x - 1.0 - c) / 2.0 + (x - 1.0 - (c - 1.0) / 2.0) == x * (x - c) / 2.0;
      Distribute((x - 1.0) * (x - 1.0 - c) / 2.0, x - 1.0 - (c - 1.0) / 2.0, spacing);
    }
  }

  lemma Distribute(a: real, b: real, s: real)
    ensures a * s + b * s == (a + b) * s
  {
  }

  /** Neighbouring lanes are exactly one spacing apart, and the lanes are centred on the street. */
  lemma LanesAreEven(count: nat, spacing: real)
    ensures forall i: int :: Shift(i + 1, count, spacing) - Shift(i, count, spacing) == spacing
    ensures ShiftSum(count, count, spacing) == 0.0
  {
    forall i: int ensures Shift(i + 1, count, spacing) - Shift(i, count, spacing) == spacing {
      Distribute(i as real - (count as real - 1.0) / 2.0, 1.0, spacing);
      assert (i + 1) as real == i as real + 1.0;
    }
    ShiftSumIs(count, count, spacing);
    assert count as real - count as real == 0.0;
    assert (count as real) * 0.0 / 2.0 * spacing == 0.0;
  }

  /** Position i of the ordered routes lies in group k. */
  ghost predicate InGroup(groups: seq<Group>, k: nat, route: Route) {
    k < |groups| && groups[k].color == route.color && route.id in groups[k].routes
  }

  lemma {:induction false} EveryRouteGrouped(items: seq<Route>, i: nat) returns (k: nat)
    requires i < |items|
    ensures InGroup(Groups(items), k, items[i])
  {
    var n := |items| - 1;
    var rest := Groups(items[..n]);
    if i < n {
      k := EveryRouteGrouped(items[..n], i);
    } else {
      k := |Groups(items)| - 1;
    }
  }

  lemma {:induction false} GroupsAlternate(items: seq<Route>, k: nat)
    requires k + 1 < |Groups(items)|
    ensures Groups(items)[k].color != Groups(items)[k + 1].color
  {
    var n := |items| - 1;
    var rest := Groups(items[..n]);
    if k + 1 < |rest| { GroupsAlternate(items[..n], k); }
  }

  lemma {:induction false} GroupMembers(items: seq<Route>, k: nat, id: string)
    requires k < |Groups(items)| && id in Groups(items)[k].routes
    ensures exists i :: 0 <= i < |items| && items[i].id == id
  {
    var n := |items| - 1;
    var rest := Groups(items[..n]);
    if k < |rest| && id in rest[k].routes { GroupMembers(items[..n], k, id); }
  }

  ghost function RouteIds(items: seq<Route>): (ids: seq<string>) {
    if items == [] then [] else RouteIds(items[..|items| - 1]) + [items[|items| - 1].id]
  }

  ghost function GroupedIds(groups: seq<Group>): seq<string> {
    if groups == [] then [] else GroupedIds(groups[..|groups| - 1]) + groups[|groups| - 1].routes
  }

  /** Read off group after group, the routes are those of the segment, in their order. */
  lemma {:induction false} GroupsKeepOrder(items: seq<Route>)
    ensures GroupedIds(Groups(items)) == RouteIds(items)
  {
    if items != [] {
      hide GroupedIds;
      var n := |items| - 1;
      var rest, all := Groups(items[..n]), Groups(items);
      var last := |all| - 1;
      GroupsKeepOrder(items[..n]);
      GroupedLast(all);
      if last < |rest| {
        GroupedLast(rest);
        assert all[..last] == rest[..last];
      } else {
        assert all[..last] == rest;
      }
    }
  }

  lemma GroupedLast(groups: seq<Group>)
    requires groups != []
    ensures GroupedIds(groups) == GroupedIds(groups[..|groups| - 1]) + groups[|groups| - 1].routes
  {
  }

  /** The loop over the groups of one segment: every route of group k gets the shift of lane k. */
  method AssignLanes(segment: SegmentKey, items: seq<Route>, offsets: Offsets) returns (after: Offsets)
    requires forall i, j :: 0 <= i < j < |items| ==> items[i].id != items[j].id
    ensures |Groups(items)| < 2 ==> after == offsets
    ensures |Groups(items)| >= 2 ==> forall k, id :: 0 <= k < |Groups(items)| && id in Groups(items)[k].routes ==>
              (segment, id) in after && after[(segment, id)] == Shift(k, |Groups(items)|, SegmentSpacing(items))
    ensures forall key :: key in after && key !in offsets ==> key.0 == segment
    ensures forall key :: key in offsets && key.0 != segment ==> key in after && after[key] == offsets[key]
  {
    after := offsets;
    var groups := BuildGroups(items);
    if |groups| < 2 {
      return;
    }
    assert items != [];
    hide Groups, Shift, SegmentSpacing;
    var spacing := SegmentSpacing(items);
    for k := 0 to |groups|
      invariant forall l, id :: 0 <= l < k && id in groups[l].routes ==>
                  (segment, id) in after && after[(segment, id)] == Shift(l, |groups|, spacing)
      invariant forall key :: key in after && key !in offsets ==> key.0 == segment
      invariant forall key :: key in offsets && key.0 != segment ==> key in after && after[key] == offsets[key]
    {
      var shift := Shift(k, |groups|, spacing);
      for m := 0 to |groups[k].routes|
        invariant forall l, id :: 0 <= l < k && id in groups[l].routes ==>
                    (segment, id) in after && after[(segment, id)] == Shift(l, |groups|, spacing)
        invariant forall id :: id in groups[k].routes[..m] ==> (segment, id) in after && after[(segment, id)] == shift
        invariant forall key :: key in after && key !in offsets ==> key.0 == segment
        invariant forall key :: key in offsets && key.0 != segment ==> key in after && after[key] == offsets[key]
      {
        var id := groups[k].routes[m];
        assert groups[k].routes[..m + 1] == groups[k].routes[..m] + [id];
        forall l | 0 <= l < k ensures id !in groups[l].routes {
          if id in groups[l].routes { GroupsDisjoint(items, l, k, id); }
        }
        after := after[(segment, id) := shift];
      }
      assert groups[k].routes[..|groups[k].routes|] == groups[k].routes;
    }
  }

  method BuildGroups(items: seq<Route>) returns (groups: seq<Group>)
    ensures groups == Groups(items)
  {
    groups := [];
    for i := 0 to |items|
      invariant groups == Groups(items[..i])
    {
      assert items[..i + 1][..i] == items[..i];
      var last := |groups| - 1;
      if groups != [] && groups[last].color == items[i].color {
        groups := groups[last := Group(items[i].color, groups[last].routes + [items[i].id])];
      } else {
        groups := groups + [Group(items[i].color, [items[i].id])];
      }
    }
    assert items[..|items|] == items;
  }

  /** A route id stands in one group only. */
  lemma {:induction false} GroupsDisjoint(items: seq<Route>, k: nat, l: nat, id: string)
    requires forall i, j :: 0 <= i < j < |items| ==> items[i].id != items[j].id
    requires k < l < |Groups(items)| && id in Groups(items)[k].routes && id in Groups(items)[l].routes
    ensures false
  {
    var n := |items| - 1;
    var rest := Groups(items[..n]);
    if l < |rest| && id in rest[l].routes {
      GroupsDisjoint(items[..n], k, l, id);
    } else {
      assert id == items[n].id;
      GroupMembers(items[..n], k, id);
    }
  }
}
