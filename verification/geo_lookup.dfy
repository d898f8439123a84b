/**
 * What the backend looks up about a location in the imported OpenStreetMap
 * tables: the distance to the nearest police station, fire station or
 * hospital (falling back to the fixed points of the score engine), and the
 * zone and road type of the nearest imported zone or road point (falling back
 * to the score engine's classification when the table is empty).
 */
module GeoLookup {
  import opened ScoreEngine
  import opened Db

  /** A distance in whole metres, and whether it came from the fallback points. */
  datatype Nearest = Nearest(distance: int, usedFallback: bool)

  /** `SELECT lat, lon FROM osm_poi WHERE poi_type = kind`, in table order. */
  function PointsOfKind(rows: seq<OsmRow>, kind: string): (pts: seq<Point>)
    ensures |pts| <= |rows|
    ensures pts == [] <==> forall i :: 0 <= i < |rows| ==> rows[i].kind != kind
    ensures forall q :: q in pts <==> exists i :: 0 <= i < |rows| && rows[i].kind == kind && PointOf(rows[i]) == q
  {
    if rows == [] then []
    else
      var rest := PointsOfKind(rows[1..], kind);
      assert forall i :: 1 <= i < |rows| ==> rows[i] == rows[1..][i - 1];
      assert forall i :: 0 <= i < |rows[1..]| ==> rows[1..][i] == rows[i + 1];
      (if rows[0].kind == kind then [PointOf(rows[0])] else []) + rest
  }

  /** `nearest_from_db`: the nearest imported point if there is one, else the
      nearest fallback point, else 5000 m; flagged as a fallback unless the
      imported table had a point of that kind. */
  function NearestFromDb(p: Point, rows: seq<Point>, fallback: seq<Point>, dist: Distance): (r: Nearest)
    ensures r.usedFallback <==> rows == []
    ensures rows != [] ==> FloorOfNearest(r.distance, p, rows, dist)
    ensures rows == [] && fallback != [] ==> FloorOfNearest(r.distance, p, fallback, dist)
    ensures rows == [] && fallback == [] ==> r.distance == 5000
  {
    if rows != [] then Nearest(NearestDistanceM(p, rows, dist), false)
    else if fallback != [] then Nearest(NearestDistanceM(p, fallback, dist), true)
    else Nearest(5000, true)
  }

  // -------------------------------------------------- nearest zone and road

  /** The starting distance of the scan in `area_from_db` and `road_from_db`. */
  const Sentinel: real := 999999.0

  datatype Scan = Scan(kind: string, best: real)

  function DistanceTo(p: Point, r: OsmRow, dist: Distance): real {
    dist(p, PointOf(r))
  }

  /** The state of the scan loop after the given rows: the type and distance
      of the row that last improved on the best distance so far. */
  function NearestScan(rows: seq<OsmRow>, p: Point, dist: Distance, initial: string): Scan
  {
    if rows == [] then Scan(initial, Sentinel)
    else
      var s := NearestScan(rows[..|rows| - 1], p, dist, initial);
      var d := DistanceTo(p, rows[|rows| - 1], dist);
      if d < s.best then Scan(rows[|rows| - 1].kind, d) else s
  }

  /** Row `k` is nearest to `p`, and no earlier row is as near. */
  ghost predicate FirstNearest(rows: seq<OsmRow>, k: int, p: Point, dist: Distance) {
    && 0 <= k < |rows|
    && (forall j :: 0 <= j < |rows| ==> DistanceTo(p, rows[k], dist) <= DistanceTo(p, rows[j], dist))
    && (forall j :: 0 <= j < k ==> DistanceTo(p, rows[j], dist) > DistanceTo(p, rows[k], dist))
  }

  /** The scan ends on the first nearest row, unless every row is at least as
      far as the sentinel, in which case it keeps its initial type. */
  lemma {:induction false} NearestScanFirstMin(rows: seq<OsmRow>, p: Point, dist: Distance, initial: string)
    ensures var s := NearestScan(rows, p, dist, initial);
            && s.best <= Sentinel
            && (s.best == Sentinel ==>
                  s.kind == initial && forall j :: 0 <= j < |rows| ==> DistanceTo(p, rows[j], dist) >= Sentinel)
            && (s.best < Sentinel ==>
                  exists k :: FirstNearest(rows, k, p, dist) && rows[k].kind == s.kind
                              && DistanceTo(p, rows[k], dist) == s.best)
  {
    if rows != [] {
      var n := |rows| - 1;
      var front := rows[..n];
      NearestScanFirstMin(front, p, dist, initial);
      var s := NearestScan(front, p, dist, initial);
      var d := DistanceTo(p, rows[n], dist);
      assert forall j :: 0 <= j < n ==> rows[j] == front[j];
      if d < s.best {
        assert FirstNearest(rows, n, p, dist);
      } else if s.best < Sentinel {
        var k :| FirstNearest(front, k, p, dist) && front[k].kind == s.kind
                 && DistanceTo(p, front[k], dist) == s.best;
        assert FirstNearest(rows, k, p, dist);
      }
    }
  }

  /** The scan's type is its initial type or the type of one of the rows. */
  lemma {:induction false} NearestScanKind(rows: seq<OsmRow>, p: Point, dist: Distance, initial: string)
    ensures var s := NearestScan(rows, p, dist, initial);
            s.kind == initial || exists k :: 0 <= k < |rows| && rows[k].kind == s.kind
  {
    if rows != [] {
      var n := |rows| - 1;
      NearestScanKind(rows[..n], p, dist, initial);
      var s := NearestScan(rows[..n], p, dist, initial);
      if s.kind != initial && DistanceTo(p, rows[n], dist) >= s.best {
        var k :| 0 <= k < n && rows[..n][k].kind == s.kind;
        assert rows[k] == rows[..n][k];
      }
    }
  }

  /** The type `area_from_db` / `road_from_db` settle on for a non-empty table:
      the type of the nearest row if it lies within `limit` metres, else `otherwise`. */
  function NearestWithin(rows: seq<OsmRow>, p: Point, dist: Distance, limit: real, otherwise: string): string
  {
    var s := NearestScan(rows, p, dist, otherwise);
    if s.best <= limit then s.kind else otherwise
  }

  lemma NearestWithinMeaning(rows: seq<OsmRow>, p: Point, dist: Distance, limit: real, otherwise: string)
    requires limit < Sentinel
    ensures (forall j :: 0 <= j < |rows| ==> DistanceTo(p, rows[j], dist) > limit) ==>
              NearestWithin(rows, p, dist, limit, otherwise) == otherwise
    ensures (exists j :: 0 <= j < |rows| && DistanceTo(p, rows[j], dist) <= limit) ==>
              exists k :: FirstNearest(rows, k, p, dist) && NearestWithin(rows, p, dist, limit, otherwise) == rows[k].kind
  {
    NearestScanFirstMin(rows, p, dist, otherwise);
    var s := NearestScan(rows, p, dist, otherwise);
    if s.best < Sentinel {
      var k :| FirstNearest(rows, k, p, dist) && rows[k].kind == s.kind && DistanceTo(p, rows[k], dist) == s.best;
    }
  }

  /** `area_from_db` as a function of the zone table. */
  function AreaChoice(zones: seq<OsmRow>, p: Point, dist: Distance): string {
    if zones == [] then ClassifyArea(p, dist) else NearestWithin(zones, p, dist, 500.0, "residential")
  }

  /** `road_from_db` as a function of the road table. */
  function RoadChoice(roads: seq<OsmRow>, p: Point, dist: Distance): string {
    if roads == [] then ClassifyRoad(p, dist) else NearestWithin(roads, p, dist, 300.0, "unknown")
  }

  /** The zone type: the static classification for an empty table, the type of
      the first nearest zone if it is within 500 m, "residential" otherwise. */
  lemma AreaChoiceMeaning(zones: seq<OsmRow>, p: Point, dist: Distance)
    ensures zones == [] ==> AreaChoice(zones, p, dist) == ClassifyArea(p, dist)
    ensures zones != [] && (forall j :: 0 <= j < |zones| ==> DistanceTo(p, zones[j], dist) > 500.0) ==>
              AreaChoice(zones, p, dist) == "residential"
    ensures (exists j :: 0 <= j < |zones| && DistanceTo(p, zones[j], dist) <= 500.0) ==>
              exists k :: FirstNearest(zones, k, p, dist) && AreaChoice(zones, p, dist) == zones[k].kind
  {
    NearestWithinMeaning(zones, p, dist, 500.0, "residential");
  }

  /** The road type: the static classification for an empty table, the type of
      the first nearest road point if it is within 300 m, "unknown" otherwise. */
  lemma RoadChoiceMeaning(roads: seq<OsmRow>, p: Point, dist: Distance)
    ensures roads == [] ==> RoadChoice(roads, p, dist) == ClassifyRoad(p, dist)
    ensures roads != [] && (forall j :: 0 <= j < |roads| ==> DistanceTo(p, roads[j], dist) > 300.0) ==>
              RoadChoice(roads, p, dist) == "unknown"
    ensures (exists j :: 0 <= j < |roads| && DistanceTo(p, roads[j], dist) <= 300.0) ==>
              exists k :: FirstNearest(roads, k, p, dist) && RoadChoice(roads, p, dist) == roads[k].kind
  {
    NearestWithinMeaning(roads, p, dist, 300.0, "unknown");
  }

  /** The chosen types satisfy the `spot` table's CHECK constraints. */
  lemma ChoicesFitSpotTable(zones: seq<OsmRow>, roads: seq<OsmRow>, p: Point, dist: Distance)
    requires OsmValid(zones, AreaTypes) && OsmValid(roads, RoadTypes)
    ensures AreaChoice(zones, p, dist) in AreaTypes
    ensures RoadChoice(roads, p, dist) in SpotRoadTypes
  {
    NearestScanKind(zones, p, dist, "residential");
    NearestScanKind(roads, p, dist, "unknown");
  }

  /** `area_from_db`: scans the zone table for the nearest zone. */
  method AreaFromDb(zones: seq<OsmRow>, p: Point, dist: Distance) returns (areaType: string)
    ensures areaType == AreaChoice(zones, p, dist)
  {
    if zones == [] {
      return ClassifyArea(p, dist);
    }
    var bestType := "residential";
    var bestDist := Sentinel;
    for i := 0 to |zones|
      invariant Scan(bestType, bestDist) == NearestScan(zones[..i], p, dist, "residential")
    {
      assert zones[..i + 1][..i] == zones[..i];
      var d := dist(p, PointOf(zones[i]));
      if d < bestDist {
        bestDist := d;
        bestType := zones[i].kind;
      }
    }
    assert zones[..|zones|] == zones;
    areaType := if bestDist <= 500.0 then bestType else "residential";
  }

  /** `road_from_db`: scans the road table for the nearest road point. */
  method RoadFromDb(roads: seq<OsmRow>, p: Point, dist: Distance) returns (roadType: string)
    ensures roadType == RoadChoice(roads, p, dist)
  {
    if roads == [] {
      return ClassifyRoad(p, dist);
    }
    var bestType := "unknown";
    var bestDist := Sentinel;
    for i := 0 to |roads|
      invariant Scan(bestType, bestDist) == NearestScan(roads[..i], p, dist, "unknown")
    {
      assert roads[..i + 1][..i] == roads[..i];
      var d := dist(p, PointOf(roads[i]));
      if d < bestDist {
        bestDist := d;
        bestType := roads[i].kind;
      }
    }
    assert roads[..|roads|] == roads;
    roadType := if bestDist <= 300.0 then bestType else "unknown";
  }
}
