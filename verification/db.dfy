/**
 * The SQLite database the backend shares between the request handlers and
 * the importers, as one object whose fields are the tables. Timestamps are
 * seconds since the epoch (the database stores them as ISO-8601 text in UTC,
 * whose string order is their time order); a day bucket is a day number.
 * `Valid` is what the schema's CHECK constraints, primary keys, foreign keys
 * and unique index guarantee about every state the program can reach.
 */
module Db {
  import opened Calendar
  import opened ScoreEngine

  const AreaTypes: set<string> := {"residential", "industrial", "commercial", "parking", "nature"}
  const SpotRoadTypes: set<string> := {"residential", "primary", "secondary", "service", "unknown"}
  const RoadTypes: set<string> := {"residential", "primary", "secondary", "service"}
  const PoiTypes: set<string> := {"police", "fire", "hospital"}
  const EventTypes: set<string> := {"market", "waste", "event", "construction"}
  const SignalTypes: set<string> := {"calm", "noise", "knock", "police"}

  datatype SpotRow = SpotRow(
    id: string, lat: real, lon: real, areaType: string, roadType: string,
    policeM: int, fireM: int, hospitalM: int, createdAt: int, updatedAt: int)

  datatype SignalRow = SignalRow(
    id: string, spotId: string, signalType: string, hashedDevice: string,
    timestamp: int, dayBucket: int)

  /** A row of `osm_poi`, `osm_zone` or `osm_road`; `kind` is its type column. */
  datatype OsmRow = OsmRow(id: string, kind: string, lat: real, lon: real, source: string, importedAt: int)

  /** A row of `open_data_event`. */
  datatype EventRow = EventRow(
    id: string, eventType: string, lat: real, lon: real, start: int, end: int,
    riskModifier: int, source: string, importedAt: int)

  /** A row of `data_source_state`, keyed by source name. */
  datatype SourceState = SourceState(importedAt: int, recordCount: int, notes: string)

  function PointOf(r: OsmRow): Point { Point(r.lat, r.lon) }

  // ------------------------------------------------------------ constraints

  ghost predicate SpotsValid(spots: map<string, SpotRow>) {
    forall id :: id in spots ==>
      spots[id].id == id && spots[id].areaType in AreaTypes && spots[id].roadType in SpotRoadTypes
  }

  /** The (spot, device, day) key of the unique index on `community_signal`. */
  predicate SameBucket(a: SignalRow, b: SignalRow) {
    a.spotId == b.spotId && a.hashedDevice == b.hashedDevice && a.dayBucket == b.dayBucket
  }

  /** Besides the schema's constraints, every stored signal's day bucket is
      the day of its timestamp: the only insert writes it so. */
  ghost predicate SignalsValid(signals: seq<SignalRow>, spots: map<string, SpotRow>) {
    && (forall i :: 0 <= i < |signals| ==> signals[i].signalType in SignalTypes && signals[i].spotId in spots)
    && (forall i :: 0 <= i < |signals| ==> signals[i].dayBucket == DayOf(signals[i].timestamp))
    && (forall i, j :: 0 <= i < j < |signals| ==> signals[i].id != signals[j].id)
    && (forall i, j :: 0 <= i < j < |signals| ==> !SameBucket(signals[i], signals[j]))
  }

  ghost predicate OsmValid(rows: seq<OsmRow>, kinds: set<string>) {
    && (forall i :: 0 <= i < |rows| ==> rows[i].kind in kinds)
    && (forall i, j :: 0 <= i < j < |rows| ==> rows[i].id != rows[j].id)
  }

  ghost predicate EventsValid(events: seq<EventRow>) {
    && (forall i :: 0 <= i < |events| ==> events[i].eventType in EventTypes)
    && (forall i, j :: 0 <= i < j < |events| ==> events[i].id != events[j].id)
  }

  class Database {
    var spots: map<string, SpotRow>
    var signals: seq<SignalRow>
    var pois: seq<OsmRow>
    var zones: seq<OsmRow>
    var roads: seq<OsmRow>
    var events: seq<EventRow>
    var sourceState: map<string, SourceState>

    ghost predicate Valid()
      reads this
    {
      && SpotsValid(spots)
      && SignalsValid(signals, spots)
      && OsmValid(pois, PoiTypes)
      && OsmValid(zones, AreaTypes)
      && OsmValid(roads, RoadTypes)
      && EventsValid(events)
    }

    /** A freshly created database: every table empty. */
    constructor ()
      ensures Valid()
      ensures spots == map[] && signals == [] && pois == [] && zones == [] && roads == []
      ensures events == [] && sourceState == map[]
    {
      spots := map[];
      signals := [];
      pois := [];
      zones := [];
      roads := [];
      events := [];
      sourceState := map[];
    }
  }
}
