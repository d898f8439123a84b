/**
 * `ensure_spot`: the spot table caches, per 4-decimal grid cell, the area
 * type, road type and emergency-service distances of the first point scored
 * in that cell. Later requests for the cell get the stored row back unchanged,
 * whatever the OpenStreetMap tables hold by then.
 */
module SpotResolver {
  import opened ScoreEngine
  import opened Db
  import opened GeoLookup

  /** A spot as `ensure_spot` returns it. A stored row carries no fallback
      flag; the payload reads the missing flag as false. */
  datatype ResolvedSpot = ResolvedSpot(row: SpotRow, usedFallbackPois: bool)

  /** The spot `ensure_spot` creates for a point whose cell has no row yet. */
  function FreshSpot(id: string, p: Point, now: int, zones: seq<OsmRow>, roads: seq<OsmRow>,
                     pois: seq<OsmRow>, dist: Distance): ResolvedSpot
  {
    var police := NearestFromDb(p, PointsOfKind(pois, "police"), PolicePoints, dist);
    var fire := NearestFromDb(p, PointsOfKind(pois, "fire"), FirePoints, dist);
    var hospital := NearestFromDb(p, PointsOfKind(pois, "hospital"), HospitalPoints, dist);
    ResolvedSpot(
      SpotRow(id, p.lat, p.lon, AreaChoice(zones, p, dist), RoadChoice(roads, p, dist),
              police.distance, fire.distance, hospital.distance, now, now),
      police.usedFallback || fire.usedFallback || hospital.usedFallback)
  }

  /** `ensure_spot` on the tables: the resolved spot and the new spot table.
      At most the point's own id is added, no stored row changes, and the
      returned row is the one stored under that id. */
  function Resolve(spots: map<string, SpotRow>, zones: seq<OsmRow>, roads: seq<OsmRow>, pois: seq<OsmRow>,
                   p: Point, now: int, dist: Distance, uuid5: string -> string): (r: (ResolvedSpot, map<string, SpotRow>))
    ensures var id := SpotIdFor(p, uuid5);
            && r.1.Keys == spots.Keys + {id}
            && (forall k :: k in spots ==> r.1[k] == spots[k])
            && r.0.row == r.1[id]
            && (id in spots ==> !r.0.usedFallbackPois)
            && (id !in spots ==> r.0.row.id == id && r.0.row.lat == p.lat && r.0.row.lon == p.lon
                                  && r.0.row.createdAt == now)
  {
    var id := SpotIdFor(p, uuid5);
    if id in spots then (ResolvedSpot(spots[id], false), spots)
    else
      var s := FreshSpot(id, p, now, zones, roads, pois, dist);
      (s, spots[id := s.row])
  }

  /** Once a cell has a row, every later request for a point of the same
      cell returns that row unchanged and inserts nothing, whatever the OSM
      tables and the clock say by then. */
  lemma ResolveCacheOnce(spots: map<string, SpotRow>, zones: seq<OsmRow>, roads: seq<OsmRow>, pois: seq<OsmRow>,
                         zones': seq<OsmRow>, roads': seq<OsmRow>, pois': seq<OsmRow>,
                         p: Point, q: Point, now: int, now': int, dist: Distance, uuid5: string -> string)
    requires SpotIdFor(q, uuid5) == SpotIdFor(p, uuid5)
    ensures var (first, spots1) := Resolve(spots, zones, roads, pois, p, now, dist, uuid5);
            Resolve(spots1, zones', roads', pois', q, now', dist, uuid5) == (ResolvedSpot(first.row, false), spots1)
  {
  }

  /** The table holds no row of the given kind. */
  predicate NoRowOfKind(rows: seq<OsmRow>, kind: string) {
    forall i :: 0 <= i < |rows| ==> rows[i].kind != kind
  }

  /** A new spot is flagged as using fallback points exactly when the POI
      table has no police station, no fire station or no hospital. */
  lemma FreshSpotFallback(id: string, p: Point, now: int, zones: seq<OsmRow>, roads: seq<OsmRow>,
                          pois: seq<OsmRow>, dist: Distance)
    ensures FreshSpot(id, p, now, zones, roads, pois, dist).usedFallbackPois <==>
              NoRowOfKind(pois, "police") || NoRowOfKind(pois, "fire") || NoRowOfKind(pois, "hospital")
  {
    assert PointsOfKind(pois, "police") == [] <==> NoRowOfKind(pois, "police");
    assert PointsOfKind(pois, "fire") == [] <==> NoRowOfKind(pois, "fire");
    assert PointsOfKind(pois, "hospital") == [] <==> NoRowOfKind(pois, "hospital");
  }

  /** The insert of a new spot row under its own id. */
  method StoreSpot(db: Database, row: SpotRow)
    requires db.Valid()
    requires row.areaType in AreaTypes && row.roadType in SpotRoadTypes
    modifies db
    ensures db.Valid()
    ensures db.spots == old(db.spots)[row.id := row]
    ensures db.signals == old(db.signals) && db.events == old(db.events) && db.sourceState == old(db.sourceState)
    ensures db.pois == old(db.pois) && db.zones == old(db.zones) && db.roads == old(db.roads)
  {
    db.spots := db.spots[row.id := row];
  }

  /** `ensure_spot`: returns the stored spot for the point's cell, or computes
      and inserts one. Only the spot table changes. */
  method EnsureSpot(db: Database, p: Point, now: int, dist: Distance, uuid5: string -> string)
    returns (spot: ResolvedSpot)
    requires db.Valid()
    modifies db
    ensures db.Valid()
    ensures (spot, db.spots) == Resolve(old(db.spots), old(db.zones), old(db.roads), old(db.pois), p, now, dist, uuid5)
    ensures db.signals == old(db.signals) && db.events == old(db.events) && db.sourceState == old(db.sourceState)
    ensures db.pois == old(db.pois) && db.zones == old(db.zones) && db.roads == old(db.roads)
  {
    var id := SpotIdFor(p, uuid5);
    if id in db.spots {
      return ResolvedSpot(db.spots[id], false);
    }
    var areaType := AreaFromDb(db.zones, p, dist);
    var roadType := RoadFromDb(db.roads, p, dist);
    var police := NearestFromDb(p, PointsOfKind(db.pois, "police"), PolicePoints, dist);
    var fire := NearestFromDb(p, PointsOfKind(db.pois, "fire"), FirePoints, dist);
    var hospital := NearestFromDb(p, PointsOfKind(db.pois, "hospital"), HospitalPoints, dist);
    var row := SpotRow(id, p.lat, p.lon, areaType, roadType,
                       police.distance, fire.distance, hospital.distance, now, now);
    ChoicesFitSpotTable(db.zones, db.roads, p, dist);
    StoreSpot(db, row);
    spot := ResolvedSpot(row, police.usedFallback || fire.usedFallback || hospital.usedFallback);
  }
}
