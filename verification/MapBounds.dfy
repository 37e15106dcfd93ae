/** Which points a frame is drawn around (map-bounds.ts), and the box a fit computes (`fitTo` in map-camera.tsx). */
module MapBounds {
  import opened Sequences
  import opened RealArithmetic

  datatype MapPoint = MapPoint(latitude: real, longitude: real)

  datatype Box = Box(minLat: real, maxLat: real, minLon: real, maxLon: real)

  /** The reach, in degrees, beyond which a position no longer counts for the frame. */
  const OUTSIDE_MARGIN_DEGREES: real := 1.5

  predicate Within(box: Box, point: MapPoint, margin: real) {
    && box.minLat - margin <= point.latitude <= box.maxLat + margin
    && box.minLon - margin <= point.longitude <= box.maxLon + margin
  }

  function Extend(box: Box, point: MapPoint): Box {
    Box(Min(box.minLat, point.latitude), Max(box.maxLat, point.latitude),
        Min(box.minLon, point.longitude), Max(box.maxLon, point.longitude))
  }

  function Around(point: MapPoint): Box {
    Box(point.latitude, point.latitude, point.longitude, point.longitude)
  }

  /** The fold both `boundingBox` and `fitTo` perform, started at the first point. */
  function BoundingBox(points: seq<MapPoint>): Box
    requires |points| > 0
  {
    if |points| == 1 then Around(points[0])
    else Extend(BoundingBox(points[..|points| - 1]), points[|points| - 1])
  }

  /** The least box: it holds every point, and every side of it touches one. */
  ghost predicate IsTight(box: Box, points: seq<MapPoint>) {
    && (forall p :: p in points ==> Within(box, p, 0.0))
    && (exists p :: p in points && p.latitude == box.minLat)
    && (exists p :: p in points && p.latitude == box.maxLat)
    && (exists p :: p in points && p.longitude == box.minLon)
    && (exists p :: p in points && p.longitude == box.maxLon)
  }

  lemma {:induction false} BoundingBoxIsTight(points: seq<MapPoint>)
    requires |points| > 0
    ensures IsTight(BoundingBox(points), points)
  {
    if |points| == 1 {
      assert points[0] in points;
    } else {
      var front, last := points[..|points| - 1], points[|points| - 1];
      BoundingBoxIsTight(front);
      assert last in points;
      assert forall p :: p in points ==> p in front || p == last;
      assert forall p :: p in front ==> p in points;
    }
  }

  lemma TightBoxIsUnique(a: Box, b: Box, points: seq<MapPoint>)
    requires IsTight(a, points)
    ensures IsTight(b, points) <==> a == b
  {
    if IsTight(b, points) {
      assert a.minLat == b.minLat && a.maxLat == b.maxLat;
    }
  }

  /** `fitTo`'s loop over the points, which starts from the first one and meets it again. */
  method FitBox(points: seq<MapPoint>) returns (box: Box)
    requires |points| > 0
    ensures box == BoundingBox(points)
    ensures IsTight(box, points)
  {
    var west, east := points[0].longitude, points[0].longitude;
    var south, north := points[0].latitude, points[0].latitude;
    for i := 0 to |points|
      invariant Box(south, north, west, east) == if i == 0 then Around(points[0]) else BoundingBox(points[..i])
    {
      assert points[..i + 1][..i] == points[..i];
      var point := points[i];
      west, east := Min(west, point.longitude), Max(east, point.longitude);
      south, north := Min(south, point.latitude), Max(north, point.latitude);
    }
    assert points[..|points|] == points;
    BoundingBoxIsTight(points);
    box := Box(south, north, west, east);
  }

  function Near(anchor: Box): MapPoint -> bool {
    point => Within(anchor, point, OUTSIDE_MARGIN_DEGREES)
  }

  /** The points worth framing: the properties, and the positions that are not far outside them. */
  function PointsToFit(properties: seq<MapPoint>, positions: seq<MapPoint>): seq<MapPoint> {
    if |properties| == 0 then positions
    else properties + Filter(positions, Near(BoundingBox(properties)))
  }

  /** A point is at most a degree and a half outside a box, on any side of it. */
  predicate WithinReach(box: Box, p: MapPoint) {
    && box.minLat - 1.5 <= p.latitude <= box.maxLat + 1.5
    && box.minLon - 1.5 <= p.longitude <= box.maxLon + 1.5
  }

  /** A position decides the framing exactly when there is nothing to anchor on or it is within the margin. */
  lemma FramedPositions(properties: seq<MapPoint>, positions: seq<MapPoint>, point: MapPoint)
    ensures point in PointsToFit(properties, positions) <==>
              || point in properties
              || (point in positions &&
                 (|properties| == 0 || WithinReach(BoundingBox(properties), point)))
  {
  }

  /** The frame holds the properties' own box and never reaches more than the margin beyond it. */
  lemma FrameStaysNearProperties(properties: seq<MapPoint>, positions: seq<MapPoint>)
    requires |properties| > 0
    ensures |PointsToFit(properties, positions)| > 0
    ensures var tight := BoundingBox(properties);
            var frame := BoundingBox(PointsToFit(properties, positions));
            && tight.minLat - 1.5 <= frame.minLat <= tight.minLat
            && tight.maxLat <= frame.maxLat <= tight.maxLat + 1.5
            && tight.minLon - 1.5 <= frame.minLon <= tight.minLon
            && tight.maxLon <= frame.maxLon <= tight.maxLon + 1.5
  {
    var points := PointsToFit(properties, positions);
    BoundingBoxIsTight(properties);
    BoundingBoxIsTight(points);
    assert forall p :: p in properties ==> p in points;
    assert forall p :: p in points ==> Within(BoundingBox(properties), p, OUTSIDE_MARGIN_DEGREES);
  }

  /**
   * Wherever it stands in the list, a position beyond the margin changes nothing; one within it joins the frame.
   */
  lemma OutlierIsIgnored(properties: seq<MapPoint>, before: seq<MapPoint>, after: seq<MapPoint>, stray: MapPoint)
    requires |properties| > 0
    ensures PointsToFit(properties, before + [stray] + after) == PointsToFit(properties, before + after)
            <==> !WithinReach(BoundingBox(properties), stray)
  {
    FilterInserted(before, stray, after, Near(BoundingBox(properties)));
  }

  /** There is something to frame exactly when anything at all is on the map. */
  lemma SomethingToFrame(properties: seq<MapPoint>, positions: seq<MapPoint>)
    ensures |PointsToFit(properties, positions)| > 0 <==> |properties| > 0 || |positions| > 0
  {
  }
}
