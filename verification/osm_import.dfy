/**
 * The OpenStreetMap importer: every element the Overpass query returned is
 * read for a position and for tags that make it an emergency-service point,
 * a land-use zone and/or a road, and the rows of source "osm_overpass" in
 * the three tables are replaced by the rows found, in one transaction.
 */
module OsmImport {
  import opened Wrappers
  import opened Text
  import opened Json
  import opened Db

  const OsmSource := "osm_overpass"

  // ------------------------------------------------------------- elements

  /** The position of an element: `At`, none, or `NotANumber` where `float()`
      raises on a coordinate. */
  datatype Coords = NoCoords | At(lat: real, lon: real) | NotANumber

  /** `float(lat), float(lon)`, the latitude converted first. */
  function PairOf(lat: Json, lon: Json, conv: Conversions): (c: Coords)
    ensures c != NoCoords
    ensures c.At? <==> PyFloat(lat, conv).Some? && PyFloat(lon, conv).Some?
  {
    match PyFloat(lat, conv)
    case None => NotANumber
    case Some(a) =>
      match PyFloat(lon, conv)
      case None => NotANumber
      case Some(b) => At(a, b)
  }

  /** `element_coords`: the element's own position when it has both
      coordinates, else the position of its `center` object when that has
      both, else none. */
  function ElementCoords(element: map<string, Json>, conv: Conversions): (c: Coords)
    ensures "lat" in element && "lon" in element ==> c == PairOf(element["lat"], element["lon"], conv)
    ensures !("lat" in element && "lon" in element) ==>
              if "center" in element && element["center"].JObj?
                 && "lat" in element["center"].fields && "lon" in element["center"].fields
              then c == PairOf(element["center"].fields["lat"], element["center"].fields["lon"], conv)
              else c == NoCoords
  {
    if "lat" in element && "lon" in element then PairOf(element["lat"], element["lon"], conv)
    else
      match Get(element, "center", JNull)
      case JObj(center) =>
        if "lat" in center && "lon" in center then PairOf(center["lat"], center["lon"], conv) else NoCoords
      case _ => NoCoords
  }

  /** A tag whose value is one of the given strings. */
  predicate TagIs(tags: map<string, Json>, key: string, values: set<string>) {
    key in tags && tags[key].JStr? && tags[key].s in values
  }

  /** `map_poi`: amenity police, fire_station or hospital. */
  function MapPoi(tags: map<string, Json>): (r: Option<string>)
    ensures r.Some? ==> r.value in PoiTypes
    ensures r == Some("police") <==> TagIs(tags, "amenity", {"police"})
    ensures r == Some("fire") <==> TagIs(tags, "amenity", {"fire_station"})
    ensures r == Some("hospital") <==> TagIs(tags, "amenity", {"hospital"})
  {
    if TagIs(tags, "amenity", {"police"}) then Some("police")
    else if TagIs(tags, "amenity", {"fire_station"}) then Some("fire")
    else if TagIs(tags, "amenity", {"hospital"}) then Some("hospital")
    else None
  }

  /** `map_zone`: a land use of residential, industrial or commercial comes
      first, then a parking amenity, then wood, scrub, heath or a nature
      reserve. */
  function MapZone(tags: map<string, Json>): (r: Option<string>)
    ensures r.Some? ==> r.value in AreaTypes
    ensures r.None? <==>
              && !TagIs(tags, "landuse", {"residential", "industrial", "commercial"})
              && !TagIs(tags, "amenity", {"parking"})
              && !TagIs(tags, "natural", {"wood", "scrub", "heath"})
              && !TagIs(tags, "leisure", {"nature_reserve"})
  {
    if TagIs(tags, "landuse", {"residential"}) then Some("residential")
    else if TagIs(tags, "landuse", {"industrial"}) then Some("industrial")
    else if TagIs(tags, "landuse", {"commercial"}) then Some("commercial")
    else if TagIs(tags, "amenity", {"parking"}) then Some("parking")
    else if TagIs(tags, "natural", {"wood", "scrub", "heath"}) || TagIs(tags, "leisure", {"nature_reserve"}) then Some("nature")
    else None
  }

  /** A land use decides the zone whatever the other tags say; a parking
      amenity wins over nature. */
  lemma MapZonePriority(tags: map<string, Json>)
    ensures TagIs(tags, "landuse", {"residential", "industrial", "commercial"}) ==>
              MapZone(tags) == Some(tags["landuse"].s)
    ensures !TagIs(tags, "landuse", {"residential", "industrial", "commercial"}) && TagIs(tags, "amenity", {"parking"}) ==>
              MapZone(tags) == Some("parking")
    ensures MapZone(tags) == Some("nature") ==>
              TagIs(tags, "natural", {"wood", "scrub", "heath"}) || TagIs(tags, "leisure", {"nature_reserve"})
  {
  }

  /** `map_road`: the highway tag itself when it is one of the four road types. */
  function MapRoad(tags: map<string, Json>): (r: Option<string>)
    ensures r.Some? <==> TagIs(tags, "highway", RoadTypes)
    ensures r.Some? ==> r.value == tags["highway"].s && r.value in RoadTypes
  {
    if TagIs(tags, "highway", RoadTypes) then Some(tags["highway"].s) else None
  }

  // ------------------------------------------------------------ the split

  /** The rows of each table. */
  datatype OsmSplit = OsmSplit(pois: seq<OsmRow>, zones: seq<OsmRow>, roads: seq<OsmRow>)

  /** `f"{type}:{id}"`, with "x" for a missing type and a fresh UUID for a
      missing id. */
  function BaseId(element: map<string, Json>, conv: Conversions, uuid: string): string {
    PyStr(Get(element, "type", JStr("x")), conv) + ":" + PyStr(Get(element, "id", JStr(uuid)), conv)
  }

  /** A row when the category is present. */
  function RowIf(kind: Option<string>, id: string, lat: real, lon: real, importedAt: int): (rows: seq<OsmRow>)
    ensures |rows| <= 1
  {
    if kind.Some? then [OsmRow(id, kind.value, lat, lon, OsmSource, importedAt)] else []
  }

  /** The rows of one element: none without a position; otherwise at most
      one row per table, all on the same base id. `Err` where Python raises:
      a coordinate `float()` refuses, or tags that are not an object. */
  function ElementRows(element: map<string, Json>, conv: Conversions, uuid: string, importedAt: int): (r: Result<OsmSplit>)
    ensures ElementCoords(element, conv) == NoCoords ==> r == Ok(OsmSplit([], [], []))
    ensures ElementCoords(element, conv) == NotANumber ==> r.Err?
  {
    var tags := Get(element, "tags", JObj(map[]));
    match ElementCoords(element, conv)
    case NoCoords => Ok(OsmSplit([], [], []))
    case NotANumber => Err("invalid_coordinate")
    case At(lat, lon) =>
      if !tags.JObj? then Err("invalid_tags")
      else
        var base := BaseId(element, conv, uuid);
        Ok(OsmSplit(RowIf(MapPoi(tags.fields), "poi:" + base, lat, lon, importedAt),
                    RowIf(MapZone(tags.fields), "zone:" + base, lat, lon, importedAt),
                    RowIf(MapRoad(tags.fields), "road:" + base, lat, lon, importedAt)))
  }

  function Concat(a: OsmSplit, b: OsmSplit): OsmSplit {
    OsmSplit(a.pois + b.pois, a.zones + b.zones, a.roads + b.roads)
  }

  /** The rows of all elements, in element order; the first element that
      raises ends the import. `freshId(i)` is the UUID drawn for element `i`. */
  function SplitElements(elements: seq<map<string, Json>>, conv: Conversions, freshId: nat -> string, importedAt: int): Result<OsmSplit> {
    if elements == [] then Ok(OsmSplit([], [], []))
    else
      var n := |elements| - 1;
      match SplitElements(elements[..n], conv, freshId, importedAt)
      case Err(e) => Err(e)
      case Ok(front) =>
        match ElementRows(elements[n], conv, freshId(n), importedAt)
        case Err(e) => Err(e)
        case Ok(last) => Ok(Concat(front, last))
  }

  /** What every row of a split carries: its table's type, the importer's
      source and instant, and its table's id prefix. */
  predicate WellFormed(sp: OsmSplit, importedAt: int) {
    && (forall r :: r in sp.pois ==> r.kind in PoiTypes && StartsWith(r.id, "poi:"))
    && (forall r :: r in sp.zones ==> r.kind in AreaTypes && StartsWith(r.id, "zone:"))
    && (forall r :: r in sp.roads ==> r.kind in RoadTypes && StartsWith(r.id, "road:"))
    && (forall r :: r in sp.pois + sp.zones + sp.roads ==> r.source == OsmSource && r.importedAt == importedAt)
  }

  lemma PrefixOf(p: string, s: string)
    ensures StartsWith(p + s, p)
  {
    assert (p + s)[..|p|] == p;
  }

  /** One element gives at most one row per table, all well formed and on one base id. */
  lemma ElementRowsMeaning(element: map<string, Json>, conv: Conversions, uuid: string, importedAt: int)
    requires ElementRows(element, conv, uuid, importedAt).Ok?
    ensures var sp := ElementRows(element, conv, uuid, importedAt).value;
            var base := BaseId(element, conv, uuid);
            && WellFormed(sp, importedAt)
            && |sp.pois| <= 1 && |sp.zones| <= 1 && |sp.roads| <= 1
            && (forall r :: r in sp.pois ==> r.id == "poi:" + base)
            && (forall r :: r in sp.zones ==> r.id == "zone:" + base)
            && (forall r :: r in sp.roads ==> r.id == "road:" + base)
  {
    var base := BaseId(element, conv, uuid);
    PrefixOf("poi:", base);
    PrefixOf("zone:", base);
    PrefixOf("road:", base);
  }

  /** Every row of the split is well formed, and each table gets at most one
      row per element. */
  lemma {:induction false} SplitElementsMeaning(elements: seq<map<string, Json>>, conv: Conversions, freshId: nat -> string, importedAt: int)
    requires SplitElements(elements, conv, freshId, importedAt).Ok?
    ensures var sp := SplitElements(elements, conv, freshId, importedAt).value;
            && WellFormed(sp, importedAt)
            && |sp.pois| <= |elements| && |sp.zones| <= |elements| && |sp.roads| <= |elements|
  {
    if elements != [] {
      var n := |elements| - 1;
      SplitElementsMeaning(elements[..n], conv, freshId, importedAt);
      ElementRowsMeaning(elements[n], conv, freshId(n), importedAt);
    }
  }

  /** An element with both a position and a police, a residential and a
      primary-road tag gives one row in each table, on the same base id. */
  lemma OneElementThreeRows(element: map<string, Json>, conv: Conversions, uuid: string, importedAt: int,
                            lat: real, lon: real)
    requires ElementCoords(element, conv) == At(lat, lon)
    requires "tags" in element && element["tags"].JObj?
    requires element["tags"].fields == map["amenity" := JStr("police"), "landuse" := JStr("residential"), "highway" := JStr("primary")]
    ensures var base := BaseId(element, conv, uuid);
            ElementRows(element, conv, uuid, importedAt)
            == Ok(OsmSplit([OsmRow("poi:" + base, "police", lat, lon, OsmSource, importedAt)],
                           [OsmRow("zone:" + base, "residential", lat, lon, OsmSource, importedAt)],
                           [OsmRow("road:" + base, "primary", lat, lon, OsmSource, importedAt)]))
  {
    var tags := element["tags"].fields;
    assert MapPoi(tags) == Some("police");
    assert MapZone(tags) == Some("residential");
    assert MapRoad(tags) == Some("primary");
  }

  /** One more element: its rows follow the earlier ones, and the first
      element that raises decides the error. */
  lemma SplitStep(elements: seq<map<string, Json>>, i: nat, conv: Conversions, freshId: nat -> string, importedAt: int)
    requires i < |elements|
    ensures SplitElements(elements[..i + 1], conv, freshId, importedAt)
            == match SplitElements(elements[..i], conv, freshId, importedAt)
               case Err(e) => Err(e)
               case Ok(front) =>
                 match ElementRows(elements[i], conv, freshId(i), importedAt)
                 case Err(e) => Err(e)
                 case Ok(last) => Ok(Concat(front, last))
  {
    assert elements[..i + 1][..i] == elements[..i];
  }

  /** The loop of `import_osm` over the elements. */
  method SplitOsmElements(elements: seq<map<string, Json>>, conv: Conversions, freshId: nat -> string, importedAt: int)
    returns (r: Result<OsmSplit>)
    ensures r == SplitElements(elements, conv, freshId, importedAt)
  {
    var pois: seq<OsmRow> := [];
    var zones: seq<OsmRow> := [];
    var roads: seq<OsmRow> := [];
    for i := 0 to |elements|
      invariant SplitElements(elements[..i], conv, freshId, importedAt) == Ok(OsmSplit(pois, zones, roads))
    {
      SplitStep(elements, i, conv, freshId, importedAt);
      ghost var before := OsmSplit(pois, zones, roads);
      var element := elements[i];
      var tags := Get(element, "tags", JObj(map[]));
      var coords := ElementCoords(element, conv);
      if coords.NoCoords? {
        assert Concat(before, OsmSplit([], [], [])) == before;
        continue;
      }
      if coords.NotANumber? {
        ErrSticks(elements, i + 1, conv, freshId, importedAt);
        return Err("invalid_coordinate");
      }
      if !tags.JObj? {
        ErrSticks(elements, i + 1, conv, freshId, importedAt);
        return Err("invalid_tags");
      }
      var base := BaseId(element, conv, freshId(i));
      ghost var last := OsmSplit(RowIf(MapPoi(tags.fields), "poi:" + base, coords.lat, coords.lon, importedAt),
                                 RowIf(MapZone(tags.fields), "zone:" + base, coords.lat, coords.lon, importedAt),
                                 RowIf(MapRoad(tags.fields), "road:" + base, coords.lat, coords.lon, importedAt));
      assert ElementRows(element, conv, freshId(i), importedAt) == Ok(last);
      var poiType := MapPoi(tags.fields);
      if poiType.Some? {
        pois := pois + [OsmRow("poi:" + base, poiType.value, coords.lat, coords.lon, OsmSource, importedAt)];
      } else {
        assert pois == pois + last.pois;
      }
      var zoneType := MapZone(tags.fields);
      if zoneType.Some? {
        zones := zones + [OsmRow("zone:" + base, zoneType.value, coords.lat, coords.lon, OsmSource, importedAt)];
      } else {
        assert zones == zones + last.zones;
      }
      var roadType := MapRoad(tags.fields);
      if roadType.Some? {
        roads := roads + [OsmRow("road:" + base, roadType.value, coords.lat, coords.lon, OsmSource, importedAt)];
      } else {
        assert roads == roads + last.roads;
      }
      assert OsmSplit(pois, zones, roads) == Concat(before, last);
    }
    assert elements[..|elements|] == elements;
    return Ok(OsmSplit(pois, zones, roads));
  }

  /** Once a prefix has raised, every longer prefix raises the same error. */
  lemma {:induction false} ErrSticks(elements: seq<map<string, Json>>, k: nat, conv: Conversions, freshId: nat -> string, importedAt: int)
    requires 0 < k <= |elements|
    requires SplitElements(elements[..k], conv, freshId, importedAt).Err?
    ensures SplitElements(elements, conv, freshId, importedAt) == SplitElements(elements[..k], conv, freshId, importedAt)
    decreases |elements| - k
  {
    if k < |elements| {
      SplitStep(elements, k, conv, freshId, importedAt);
      ErrSticks(elements, k + 1, conv, freshId, importedAt);
    } else {
      assert elements[..k] == elements;
    }
  }

  // ---------------------------------------------------------------- tables

  /** A table without the rows of the given source, in table order. */
  function WithoutSource(rows: seq<OsmRow>, source: string): (r: seq<OsmRow>)
    ensures |r| <= |rows|
    ensures forall x :: x in r <==> x in rows && x.source != source
  {
    if rows == [] then []
    else
      var n := |rows| - 1;
      var front := WithoutSource(rows[..n], source);
      assert rows == rows[..n] + [rows[n]];
      if rows[n].source == source then front else front + [rows[n]]
  }

  /** The table after the importer's rows are replaced. */
  function Replaced(rows: seq<OsmRow>, added: seq<OsmRow>): seq<OsmRow> {
    WithoutSource(rows, OsmSource) + added
  }

  predicate OsmIdsDistinct(rows: seq<OsmRow>) {
    forall i, j :: 0 <= i < j < |rows| ==> rows[i].id != rows[j].id
  }

  /** After the replacement, the importer's rows are exactly the new ones and
      every other source's rows are as before. */
  lemma ReplacedMeaning(rows: seq<OsmRow>, added: seq<OsmRow>)
    requires forall r :: r in added ==> r.source == OsmSource
    ensures forall x :: x in Replaced(rows, added) && x.source == OsmSource <==> x in added
    ensures forall x: OsmRow :: x.source != OsmSource ==> (x in Replaced(rows, added) <==> x in rows)
  {
  }

  /** Replacing keeps every row's type in its table's set when the new rows'
      types are, and the ids must be distinct for the insert to succeed. */
  lemma ReplacedValid(rows: seq<OsmRow>, added: seq<OsmRow>, kinds: set<string>)
    requires OsmValid(rows, kinds)
    requires forall r :: r in added ==> r.kind in kinds
    requires OsmIdsDistinct(Replaced(rows, added))
    ensures OsmValid(Replaced(rows, added), kinds)
  {
    var all := Replaced(rows, added);
    forall i | 0 <= i < |all| ensures all[i].kind in kinds {
      assert all[i] in all;
      if all[i] !in added {
        var k :| 0 <= k < |rows| && rows[k] == all[i];
      }
    }
  }

  /** The three row counts `import_osm` reports, besides the element count. */
  datatype OsmCounts = OsmCounts(elements: nat, pois: nat, zones: nat, roads: nat)

  /** The three replaced tables succeed exactly when no id is taken twice. */
  predicate Storable(pois: seq<OsmRow>, zones: seq<OsmRow>, roads: seq<OsmRow>, sp: OsmSplit) {
    && OsmIdsDistinct(Replaced(pois, sp.pois))
    && OsmIdsDistinct(Replaced(zones, sp.zones))
    && OsmIdsDistinct(Replaced(roads, sp.roads))
  }

  /** The importer's rows were replaced by `sp` in the three tables of `db`,
      which held `pois`, `zones` and `roads`, and its state was set to `now`,
      the total row count and `notes`. */
  ghost predicate Stored(db: Database, pois: seq<OsmRow>, zones: seq<OsmRow>, roads: seq<OsmRow>,
                         state: map<string, SourceState>, sp: OsmSplit, now: int, notes: string)
    reads db
  {
    && db.pois == Replaced(pois, sp.pois)
    && db.zones == Replaced(zones, sp.zones)
    && db.roads == Replaced(roads, sp.roads)
    && db.sourceState == state[OsmSource := SourceState(now, |sp.pois| + |sp.zones| + |sp.roads|, notes)]
  }

  /** The three tables and the source state of `db` are as given. */
  ghost predicate OsmTablesAre(db: Database, pois: seq<OsmRow>, zones: seq<OsmRow>, roads: seq<OsmRow>,
                               state: map<string, SourceState>)
    reads db
  {
    db.pois == pois && db.zones == zones && db.roads == roads && db.sourceState == state
  }

  /** The transaction of `import_osm`: the importer's rows in the three
      tables are replaced and its state upserted with the total row count, or,
      when an id is taken, nothing changes. */
  method StoreSplit(db: Database, sp: OsmSplit, now: int, notes: string) returns (stored: bool)
    requires db.Valid()
    requires WellFormed(sp, now)
    modifies db
    ensures db.Valid()
    ensures stored == Storable(old(db.pois), old(db.zones), old(db.roads), sp)
    ensures stored ==> Stored(db, old(db.pois), old(db.zones), old(db.roads), old(db.sourceState), sp, now, notes)
    ensures !stored ==> OsmTablesAre(db, old(db.pois), old(db.zones), old(db.roads), old(db.sourceState))
    ensures db.spots == old(db.spots) && db.signals == old(db.signals) && db.events == old(db.events)
  {
    if !Storable(db.pois, db.zones, db.roads, sp) {
      return false;
    }
    ReplacedValid(db.pois, sp.pois, PoiTypes);
    ReplacedValid(db.zones, sp.zones, AreaTypes);
    ReplacedValid(db.roads, sp.roads, RoadTypes);
    db.pois, db.zones, db.roads := Replaced(db.pois, sp.pois), Replaced(db.zones, sp.zones), Replaced(db.roads, sp.roads);
    var total := |sp.pois| + |sp.zones| + |sp.roads|;
    db.sourceState := db.sourceState[OsmSource := SourceState(now, total, notes)];
    return true;
  }

  /** `import_osm` on the elements the Overpass query returned: an element
      that raises ends the import before the database is touched; otherwise
      the rows are stored as `StoreSplit` says, and the counts reported are
      those of the elements and of each table's new rows. */
  method ImportOsm(db: Database, elements: seq<map<string, Json>>, conv: Conversions, freshId: nat -> string,
                   now: int, notes: string)
    returns (r: Result<OsmCounts>)
    requires db.Valid()
    modifies db
    ensures db.Valid()
    ensures SplitElements(elements, conv, freshId, now).Err? ==>
              && r == Err(SplitElements(elements, conv, freshId, now).error)
              && OsmTablesAre(db, old(db.pois), old(db.zones), old(db.roads), old(db.sourceState))
    ensures SplitElements(elements, conv, freshId, now).Ok? ==>
              var sp := SplitElements(elements, conv, freshId, now).value;
              && (r.Ok? <==> Storable(old(db.pois), old(db.zones), old(db.roads), sp))
              && (r.Ok? ==>
                    && r.value == OsmCounts(|elements|, |sp.pois|, |sp.zones|, |sp.roads|)
                    && Stored(db, old(db.pois), old(db.zones), old(db.roads), old(db.sourceState), sp, now, notes))
              && (r.Err? ==> OsmTablesAre(db, old(db.pois), old(db.zones), old(db.roads), old(db.sourceState)))
    ensures db.spots == old(db.spots) && db.signals == old(db.signals) && db.events == old(db.events)
  {
    var split := SplitOsmElements(elements, conv, freshId, now);
    if split.Err? {
      return Err(split.error);
    }
    var sp := split.value;
    SplitElementsMeaning(elements, conv, freshId, now);
    var stored := StoreSplit(db, sp, now, notes);
    if !stored {
      return Err("integrity_error");
    }
    r := Ok(OsmCounts(|elements|, |sp.pois|, |sp.zones|, |sp.roads|));
  }
}
