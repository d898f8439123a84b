/**
 * The database side of the open-data connector: `import_event_rows`
 * replaces every stored event of one source by the accepted rows and
 * records the import in `data_source_state`; `prune_sources_not_in_config`
 * removes the events of sources the configuration no longer names; and
 * `import_from_config` walks the configured sources, imports the enabled
 * ones and empties the disabled ones. Each runs in one transaction, so a
 * failed insert leaves both tables as they were.
 */
module OpenDataImport {
  import opened Wrappers
  import opened Text
  import opened Json
  import opened Db
  import opened OpenData
  import opened Sorting

  const DefaultSourceName := "open_data_source"
  const DefaultProtected: set<string> := {"osm_overpass"}
  const PrunedNote := "pruned_not_in_config"
  const DisabledNote := "disabled in config"
  /** SQLite's message when the primary key of the event table refuses an
      insert: `str()` of the `sqlite3.IntegrityError` it raises. */
  const IntegrityError := "UNIQUE constraint failed: open_data_event.id"

  // ------------------------------------------------------------ event table

  /** The names a list holds. */
  function Members(names: seq<string>): set<string> {
    set x | x in names
  }

  lemma MembersOf(names: seq<string>, s: set<string>)
    requires forall x :: x in names <==> x in s
    ensures Members(names) == s
  {
  }

  /** The stored row of an accepted payload. */
  function RowOf(p: EventPayload, sourceName: string, importedAt: int): EventRow {
    EventRow(p.id, p.fields.eventType, p.fields.lat, p.fields.lon, p.fields.start, p.fields.end,
             p.fields.risk, sourceName, importedAt)
  }

  /** The rows `import_event_rows` inserts: one per item of a known type, in order. */
  function StoredRows(items: seq<EventPayload>, sourceName: string, importedAt: int): (rows: seq<EventRow>)
    ensures |rows| <= |items|
    ensures forall r :: r in rows ==> r.eventType in EventTypes && r.source == sourceName && r.importedAt == importedAt
  {
    if items == [] then []
    else
      var n := |items| - 1;
      var front := StoredRows(items[..n], sourceName, importedAt);
      if items[n].fields.eventType in EventTypes then front + [RowOf(items[n], sourceName, importedAt)] else front
  }

  /** A row is stored exactly for each item whose type is one of the four. */
  lemma {:induction false} StoredRowsMeaning(items: seq<EventPayload>, sourceName: string, importedAt: int)
    ensures forall r :: r in StoredRows(items, sourceName, importedAt) <==>
              exists p :: p in items && p.fields.eventType in EventTypes && r == RowOf(p, sourceName, importedAt)
  {
    if items != [] {
      var n := |items| - 1;
      StoredRowsMeaning(items[..n], sourceName, importedAt);
      assert items == items[..n] + [items[n]];
      forall r | exists p :: p in items && p.fields.eventType in EventTypes && r == RowOf(p, sourceName, importedAt)
        ensures r in StoredRows(items, sourceName, importedAt)
      {
        var p :| p in items && p.fields.eventType in EventTypes && r == RowOf(p, sourceName, importedAt);
        if p != items[n] {
          assert p in items[..n];
        }
      }
    }
  }

  /** The events left after `DELETE ... WHERE source IN drop`, in table order. */
  function DeleteSources(events: seq<EventRow>, drop: set<string>): (r: seq<EventRow>)
    ensures |r| <= |events|
    ensures forall e :: e in r <==> e in events && e.source !in drop
  {
    if events == [] then []
    else
      var n := |events| - 1;
      var front := DeleteSources(events[..n], drop);
      assert events == events[..n] + [events[n]];
      if events[n].source in drop then front else front + [events[n]]
  }

  /** `SELECT COUNT(*) ... WHERE source IN drop`. */
  function CountSources(events: seq<EventRow>, drop: set<string>): nat {
    if events == [] then 0
    else
      var n := |events| - 1;
      CountSources(events[..n], drop) + (if events[n].source in drop then 1 else 0)
  }

  /** Every event is either counted or kept. */
  lemma {:induction false} CountedOrKept(events: seq<EventRow>, drop: set<string>)
    ensures CountSources(events, drop) + |DeleteSources(events, drop)| == |events|
  {
    if events != [] {
      CountedOrKept(events[..|events| - 1], drop);
    }
  }

  lemma {:induction false} DeleteSourcesAppend(a: seq<EventRow>, b: seq<EventRow>, drop: set<string>)
    ensures DeleteSources(a + b, drop) == DeleteSources(a, drop) + DeleteSources(b, drop)
    decreases |b|
  {
    if b == [] {
      assert a + b == a;
    } else {
      var n := |b| - 1;
      assert (a + b)[..|a + b| - 1] == a + b[..n];
      DeleteSourcesAppend(a, b[..n], drop);
    }
  }

  /** Deleting two sets of sources one after the other deletes their union. */
  lemma {:induction false} DeleteSourcesTwice(events: seq<EventRow>, s: set<string>, t: set<string>)
    ensures DeleteSources(DeleteSources(events, s), t) == DeleteSources(events, s + t)
  {
    if events != [] {
      var n := |events| - 1;
      DeleteSourcesTwice(events[..n], s, t);
      var front := DeleteSources(events[..n], s);
      var last := if events[n].source in s then [] else [events[n]];
      DeleteSourcesAppend(front, last, t);
      assert DeleteSources([], t) == [];
      if last != [] {
        assert [events[n]][..0] == [];
      }
    }
  }

  /** Rows that all belong to the deleted sources leave nothing behind. */
  lemma {:induction false} DeleteSourcesAll(rows: seq<EventRow>, drop: set<string>)
    requires forall r :: r in rows ==> r.source in drop
    ensures DeleteSources(rows, drop) == []
  {
    if rows != [] {
      var n := |rows| - 1;
      assert forall r :: r in rows[..n] ==> r in rows;
      DeleteSourcesAll(rows[..n], drop);
    }
  }

  /** Deleting keeps ids distinct and types valid. */
  lemma {:induction false} DeleteSourcesValid(events: seq<EventRow>, drop: set<string>)
    requires EventsValid(events)
    ensures EventsValid(DeleteSources(events, drop))
  {
    if events != [] {
      var n := |events| - 1;
      var front := events[..n];
      assert EventsValid(front) by {
        forall i | 0 <= i < n ensures front[i] == events[i] { }
      }
      DeleteSourcesValid(front, drop);
      var kept := DeleteSources(front, drop);
      if events[n].source !in drop {
        forall e | e in kept ensures e.id != events[n].id {
          var k :| 0 <= k < n && front[k] == e;
          assert events[k] == e;
        }
        var r := kept + [events[n]];
        forall i, j | 0 <= i < j < |r| ensures r[i].id != r[j].id {
          if j == |kept| {
            assert r[i] in kept;
          } else {
            assert r[i] == kept[i] && r[j] == kept[j];
          }
        }
        forall i | 0 <= i < |r| ensures r[i].eventType in EventTypes {
          if i < |kept| { assert r[i] == kept[i]; }
        }
      }
    }
  }

  predicate DistinctIds(events: seq<EventRow>) {
    forall i, j :: 0 <= i < j < |events| ==> events[i].id != events[j].id
  }

  /** The table after one source's events are replaced by `rows`. */
  function ReplaceSource(events: seq<EventRow>, sourceName: string, rows: seq<EventRow>): seq<EventRow> {
    DeleteSources(events, {sourceName}) + rows
  }

  /** After the replacement the source's events are exactly the new rows and
      every other source's events are as before. */
  lemma ReplaceSourceMeaning(events: seq<EventRow>, sourceName: string, rows: seq<EventRow>)
    requires forall r :: r in rows ==> r.source == sourceName
    ensures forall e :: e in ReplaceSource(events, sourceName, rows) && e.source == sourceName <==> e in rows
    ensures forall e: EventRow :: e.source != sourceName ==> (e in ReplaceSource(events, sourceName, rows) <==> e in events)
  {
  }

  /** Importing a source twice leaves only the second import's rows. */
  lemma LastImportWins(events: seq<EventRow>, sourceName: string, first: seq<EventRow>, second: seq<EventRow>)
    requires forall r :: r in first ==> r.source == sourceName
    ensures ReplaceSource(ReplaceSource(events, sourceName, first), sourceName, second)
            == ReplaceSource(events, sourceName, second)
  {
    var drop := {sourceName};
    DeleteSourcesAppend(DeleteSources(events, drop), first, drop);
    DeleteSourcesTwice(events, drop, drop);
    assert drop + drop == drop;
    DeleteSourcesAll(first, drop);
    assert DeleteSources(events, drop) + [] == DeleteSources(events, drop);
  }

  /** The state table after the sources in `names` are each upserted with `st`. */
  function MarkSources(state: map<string, SourceState>, names: set<string>, st: SourceState): (r: map<string, SourceState>)
    ensures r.Keys == state.Keys + names
    ensures forall k :: k in names ==> r[k] == st
    ensures forall k :: k in state && k !in names ==> r[k] == state[k]
  {
    map k | k in state.Keys + names :: if k in names then st else state[k]
  }

  lemma {:induction false} DeleteNothing(events: seq<EventRow>)
    ensures DeleteSources(events, {}) == events
  {
    if events != [] {
      var n := |events| - 1;
      DeleteNothing(events[..n]);
      assert events == events[..n] + [events[n]];
    }
  }

  /** Deleting the next listed source extends what the loop has deleted. */
  lemma DeleteNext(events0: seq<EventRow>, names: seq<string>, i: nat)
    requires i < |names|
    ensures Members(names[..i + 1]) == Members(names[..i]) + {names[i]}
    ensures DeleteSources(DeleteSources(events0, Members(names[..i])), {names[i]})
            == DeleteSources(events0, Members(names[..i + 1]))
  {
    assert names[..i + 1] == names[..i] + [names[i]];
    DeleteSourcesTwice(events0, Members(names[..i]), {names[i]});
  }

  /** Upserting the next listed source extends what the loop has marked. */
  lemma MarkNext(state0: map<string, SourceState>, names: seq<string>, i: nat, st: SourceState)
    requires i < |names|
    ensures MarkSources(state0, Members(names[..i]), st)[names[i] := st] == MarkSources(state0, Members(names[..i + 1]), st)
  {
    assert names[..i + 1] == names[..i] + [names[i]];
    assert Members(names[..i + 1]) == Members(names[..i]) + {names[i]};
  }

  // ------------------------------------------------------- import_event_rows

  /** `import_event_rows`: the items of a known type replace every stored
      event of the source, and the source's state records the import time,
      the number of rows and the notes. An id that is already taken, by
      another source or twice in the batch, fails the unique key and the
      transaction leaves both tables unchanged. */
  method ImportEventRows(db: Database, items: seq<EventPayload>, sourceName: string, notes: string, now: int)
    returns (r: Result<nat>)
    requires db.Valid()
    modifies db
    ensures db.Valid()
    ensures var rows := StoredRows(items, sourceName, now);
            var replaced := ReplaceSource(old(db.events), sourceName, rows);
            if DistinctIds(replaced) then
              && r == Ok(|rows|)
              && db.events == replaced
              && db.sourceState == old(db.sourceState)[sourceName := SourceState(now, |rows|, notes)]
            else
              && r == Err(IntegrityError)
              && db.events == old(db.events) && db.sourceState == old(db.sourceState)
    ensures db.spots == old(db.spots) && db.signals == old(db.signals)
    ensures db.pois == old(db.pois) && db.zones == old(db.zones) && db.roads == old(db.roads)
  {
    var rows: seq<EventRow> := [];
    for i := 0 to |items|
      invariant rows == StoredRows(items[..i], sourceName, now)
    {
      assert items[..i + 1][..i] == items[..i];
      var item := items[i];
      if item.fields.eventType !in EventTypes {
        continue;
      }
      rows := rows + [RowOf(item, sourceName, now)];
    }
    assert items[..|items|] == items;
    var replaced := DeleteSources(db.events, {sourceName}) + rows;
    if !DistinctIds(replaced) {
      return Err(IntegrityError);
    }
    DeleteSourcesValid(db.events, {sourceName});
    db.events := replaced;
    db.sourceState := db.sourceState[sourceName := SourceState(now, |rows|, notes)];
    r := Ok(|rows|);
  }

  // ---------------------------------------------- prune_sources_not_in_config

  function EventSources(events: seq<EventRow>): (names: set<string>)
    ensures forall e :: e in events ==> e.source in names
  {
    set e | e in events :: e.source
  }

  /** `protected_sources or {"osm_overpass"}`: the default also replaces an
      empty set. */
  function ProtectedOf(protectedSources: Option<set<string>>): (p: set<string>)
    ensures p != {}
    ensures protectedSources.Some? && protectedSources.value != {} ==> p == protectedSources.value
  {
    if protectedSources.None? || protectedSources.value == {} then DefaultProtected else protectedSources.value
  }

  /** The sources whose events are deleted. */
  function PruneSet(events: seq<EventRow>, configNames: set<string>, protected: set<string>): set<string> {
    EventSources(events) - configNames - protected
  }

  /** The sources whose state is marked as pruned. */
  function MarkSet(state: map<string, SourceState>, configNames: set<string>, protected: set<string>): set<string> {
    state.Keys - configNames - protected
  }

  /** A configured or protected source is never pruned or marked, and after
      pruning no event belongs to a source that is neither. */
  lemma PruneMeaning(events: seq<EventRow>, state: map<string, SourceState>, configNames: set<string>, protected: set<string>)
    ensures var after := DeleteSources(events, PruneSet(events, configNames, protected));
            && (forall e :: e in after <==> e in events && (e.source in configNames || e.source in protected))
            && (forall n :: n in configNames + protected ==>
                  n !in PruneSet(events, configNames, protected) && n !in MarkSet(state, configNames, protected))
  {
  }

  /** `prune_sources_not_in_config`: deletes the events of every source that
      is neither configured nor protected, counting them, marks the state of
      every such source in the state table, and returns the union of both
      sets in ascending order. */
  method PruneSourcesNotInConfig(db: Database, configNames: set<string>, protectedSources: Option<set<string>>, now: int)
    returns (sources: seq<string>, rows: nat)
    requires db.Valid()
    modifies db
    ensures db.Valid()
    ensures var protected := ProtectedOf(protectedSources);
            var toPrune := PruneSet(old(db.events), configNames, protected);
            var toMark := MarkSet(old(db.sourceState), configNames, protected);
            && db.events == DeleteSources(old(db.events), toPrune)
            && rows == CountSources(old(db.events), toPrune)
            && db.sourceState == MarkSources(old(db.sourceState), toMark, SourceState(now, 0, PrunedNote))
            && StrictlyAscending(sources)
            && (forall x :: x in sources <==> x in toPrune + toMark)
    ensures db.spots == old(db.spots) && db.signals == old(db.signals)
    ensures db.pois == old(db.pois) && db.zones == old(db.zones) && db.roads == old(db.roads)
  {
    var protected := ProtectedOf(protectedSources);
    var pruneSet := EventSources(db.events) - configNames - protected;
    var markSet := db.sourceState.Keys - configNames - protected;
    var toPrune := SortedStrings(pruneSet);
    var toMark := SortedStrings(markSet);
    MembersOf(toPrune, pruneSet);
    MembersOf(toMark, markSet);
    rows := DeleteEach(db, toPrune);
    MarkEach(db, toMark, SourceState(now, 0, PrunedNote));
    sources := SortedStrings(pruneSet + markSet);
  }

  /** The delete loop of `prune_sources_not_in_config`: each listed source's
      events are counted, then deleted. */
  method DeleteEach(db: Database, names: seq<string>) returns (rows: nat)
    requires db.Valid()
    modifies db
    ensures db.Valid()
    ensures db.events == DeleteSources(old(db.events), Members(names))
    ensures rows == CountSources(old(db.events), Members(names))
    ensures db.sourceState == old(db.sourceState)
    ensures db.spots == old(db.spots) && db.signals == old(db.signals)
    ensures db.pois == old(db.pois) && db.zones == old(db.zones) && db.roads == old(db.roads)
  {
    // The transaction's working copy of the table, committed at the end.
    var events := db.events;
    DeleteNothing(events);
    assert Members(names[..0]) == {};
    rows := 0;
    for i := 0 to |names|
      invariant unchanged(db)
      invariant events == DeleteSources(old(db.events), Members(names[..i]))
      invariant rows + |events| == |old(db.events)|
    {
      var name := names[i];
      var count := CountSources(events, {name});
      CountedOrKept(events, {name});
      DeleteNext(old(db.events), names, i);
      rows := rows + count;
      events := DeleteSources(events, {name});
    }
    assert names[..|names|] == names;
    CountedOrKept(old(db.events), Members(names));
    DeleteSourcesValid(old(db.events), Members(names));
    db.events := events;
    assert db.Valid();
  }

  /** The state loop of `prune_sources_not_in_config`: each listed source's
      state is upserted with `st`. */
  method MarkEach(db: Database, names: seq<string>, st: SourceState)
    requires db.Valid()
    modifies db
    ensures db.Valid()
    ensures db.sourceState == MarkSources(old(db.sourceState), Members(names), st)
    ensures db.events == old(db.events)
    ensures db.spots == old(db.spots) && db.signals == old(db.signals)
    ensures db.pois == old(db.pois) && db.zones == old(db.zones) && db.roads == old(db.roads)
  {
    var state := db.sourceState;
    assert MarkSources(state, Members(names[..0]), st) == state;
    for i := 0 to |names|
      invariant unchanged(db)
      invariant state == MarkSources(old(db.sourceState), Members(names[..i]), st)
    {
      MarkNext(old(db.sourceState), names, i, st);
      state := state[names[i] := st];
    }
    assert names[..|names|] == names;
    db.sourceState := state;
  }

  // ------------------------------------------------------- import_from_config

  /** `source.get("source_name") or source.get("id") or "open_data_source"`,
      taken as text (`str()`) wherever it is used. This is the corrected
      reading: the program keeps the raw value, see `AsWrittenNameOf`. */
  function NameOf(src: map<string, Json>, conv: Conversions): (name: string)
    ensures "source_name" in src && src["source_name"].JStr? && src["source_name"].s != "" ==>
              name == src["source_name"].s
    ensures !Truthy(Get(src, "source_name", JNull)) && !Truthy(Get(src, "id", JNull)) ==> name == DefaultSourceName
  {
    var sn := Get(src, "source_name", JNull);
    var id := Get(src, "id", JNull);
    if Truthy(sn) then PyStr(sn, conv)
    else if Truthy(id) then PyStr(id, conv)
    else DefaultSourceName
  }

  /** The name as the program keeps it: the raw JSON value, which
      `import_from_config` puts into `all_source_names` as it is. */
  function AsWrittenNameOf(src: map<string, Json>): (name: Json)
    ensures Truthy(name) || name == JStr(DefaultSourceName)
  {
    var sn := Get(src, "source_name", JNull);
    var id := Get(src, "id", JNull);
    if Truthy(sn) then sn else if Truthy(id) then id else JStr(DefaultSourceName)
  }

  /** The text a `TEXT` column stores for a bound scalar: a string as it is,
      an integer as its decimal digits, a boolean as 1 or 0 (the values
      SQLite is handed for `True` and `False`). Other values are not stored
      as text here. */
  function StoredName(j: Json): (r: Option<string>)
    ensures j.JStr? ==> r == Some(j.s)
    ensures j.JInt? ==> r == Some(IntToString(j.i))
  {
    match j
    case JStr(s) => Some(s)
    case JInt(i) => Some(IntToString(i))
    case JBool(b) => Some(if b then "1" else "0")
    case _ => None
  }

  /** `(existing_sources - config_source_names) - protected` as written: the
      stored texts are compared with the raw configured values, and a text
      never equals a number. */
  function AsWrittenPruneSet(events: seq<EventRow>, rawNames: set<Json>, protected: set<string>): (s: set<string>)
    ensures forall x :: x in s <==> x in EventSources(events) && JStr(x) !in rawNames && x !in protected
  {
    set x | x in EventSources(events) && JStr(x) !in rawNames && x !in protected
  }

  /** A source configured only by the integer id 7 has its events stored
      under the text "7", and the program's prune then deletes them again,
      since "7" is not the configured value 7. Taking the name as text, the
      source is configured under "7" and keeps its events. */
  lemma NumericIdPrunedByOwnRun(events: seq<EventRow>, conv: Conversions)
    requires exists e :: e in events && e.source == "7"
    ensures var src := map["id" := JInt(7), "enabled" := JBool(true)];
            && AsWrittenNameOf(src) == JInt(7)
            && StoredName(AsWrittenNameOf(src)) == Some("7")
            && "7" in AsWrittenPruneSet(events, {AsWrittenNameOf(src)}, ProtectedOf(None))
            && NameOf(src, conv) == "7"
            && "7" !in PruneSet(events, {NameOf(src, conv)}, ProtectedOf(None))
  {
    var src := map["id" := JInt(7), "enabled" := JBool(true)];
    assert IntToString(7) == "7";
    var e :| e in events && e.source == "7";
    assert "7" in EventSources(events);
    assert "7" != "osm_overpass";
  }

  /** `source_cfg.get("url") or source_cfg.get("file")`. */
  function Location(src: map<string, Json>): Json {
    var url := Get(src, "url", JNull);
    if Truthy(url) then url else Get(src, "file", JNull)
  }

  /** `source_cfg.get("format") or "csv"`, before lowercasing. */
  function FormatOf(src: map<string, Json>): Json {
    var f := Get(src, "format", JNull);
    if Truthy(f) then f else JStr("csv")
  }

  /** The error a method call on a value that is not a string raises. */
  const NotAString := "AttributeError"

  /** The checks `import_from_source` makes of its entry that do not depend on
      the records: a source needs a `url` or a `file`, and its lowercased
      format must be "csv" or "json". On success, the location and the
      format. */
  function SourceSetup(src: map<string, Json>, conv: Conversions): (r: Result<(string, string)>)
    ensures r.Ok? <==> && Truthy(Location(src)) && Location(src).JStr? && FormatOf(src).JStr?
                       && Lower(FormatOf(src).s) in {"csv", "json"}
    ensures r.Ok? ==> r.value == (Location(src).s, Lower(FormatOf(src).s))
    ensures !Truthy(Location(src)) ==> r == Err("source '" + NameOf(src, conv) + "' missing url/file")
    ensures (Truthy(Location(src)) && Location(src).JStr? && FormatOf(src).JStr?
             && Lower(FormatOf(src).s) !in {"csv", "json"}) ==>
              r == Err("unsupported format: " + Lower(FormatOf(src).s))
  {
    var location := Location(src);
    var format := FormatOf(src);
    if !Truthy(location) then Err("source '" + NameOf(src, conv) + "' missing url/file")
    else if !format.JStr? || !location.JStr? then Err(NotAString)
    else if Lower(format.s) == "csv" || Lower(format.s) == "json" then Ok((location.s, Lower(format.s)))
    else Err("unsupported format: " + Lower(format.s))
  }

  /** `source.get("enabled", False)`, by truthiness. */
  predicate Enabled(src: map<string, Json>) {
    Truthy(Get(src, "enabled", JBool(false)))
  }

  /** What `import_from_source` has in hand before it writes: the accepted
      rows, the note naming connector, location and format, and the
      counters. */
  datatype SourceBatch = SourceBatch(rows: seq<EventPayload>, notes: string, stats: Stats)

  /** One entry of the `imported` list. */
  datatype ImportSummary = ImportSummary(
    connectorId: Json, sourceName: string, rows: nat, stats: Option<Stats>, error: Option<string>)

  /** `source.get("id", source_name)`. */
  function ConnectorId(src: map<string, Json>, conv: Conversions): Json {
    Get(src, "id", JStr(NameOf(src, conv)))
  }

  /** The entry for a source whose import raised: no rows and the error text. */
  function FailedSummary(src: map<string, Json>, conv: Conversions, error: string): ImportSummary {
    ImportSummary(ConnectorId(src, conv), NameOf(src, conv), 0, None, Some(error))
  }

  /** One enabled source. `fetch` stands for the part of `import_from_source`
      before `import_event_rows` (reading and decoding the location and
      checking each record), an `Err` for the exception it raises. A batch
      then replaces the source's events as `import_event_rows` does; when
      the unique key refuses it the tables stay as they were and the summary
      carries the error. */
  function ImportOne(t: Tables, src: map<string, Json>, conv: Conversions,
                     fetch: map<string, Json> -> Result<SourceBatch>, now: int): (Tables, ImportSummary) {
    var name := NameOf(src, conv);
    match fetch(src)
    case Err(e) => (t, FailedSummary(src, conv, e))
    case Ok(batch) =>
      var rows := StoredRows(batch.rows, name, now);
      var replaced := ReplaceSource(t.events, name, rows);
      if DistinctIds(replaced) then
        (Tables(replaced, t.state[name := SourceState(now, |rows|, batch.notes)]),
         ImportSummary(ConnectorId(src, conv), name, |rows|, Some(batch.stats), None))
      else (t, FailedSummary(src, conv, IntegrityError))
  }

  /** A failed import leaves both tables as they were; a successful one
      leaves the source with exactly the stored rows of its batch, every
      other source's events as they were, the ids distinct, and the state
      recording the time, the row count and the note. */
  lemma ImportOneMeaning(t: Tables, src: map<string, Json>, conv: Conversions,
                         fetch: map<string, Json> -> Result<SourceBatch>, now: int)
    requires DistinctIds(t.events)
    ensures var (after, summary) := ImportOne(t, src, conv, fetch, now);
            var name := NameOf(src, conv);
            && summary.sourceName == name && summary.connectorId == ConnectorId(src, conv)
            && (fetch(src).Err? ==> summary.error == Some(fetch(src).error))
            && (summary.error.Some? ==> after == t && summary.rows == 0 && summary.stats.None?)
            && (summary.error.None? ==>
                  var rows := StoredRows(fetch(src).value.rows, name, now);
                  && fetch(src).Ok? && summary.rows == |rows| && summary.stats == Some(fetch(src).value.stats)
                  && DistinctIds(after.events)
                  && (forall e :: e in after.events && e.source == name <==> e in rows)
                  && (forall e: EventRow :: e.source != name ==> (e in after.events <==> e in t.events))
                  && after.state == t.state[name := SourceState(now, |rows|, fetch(src).value.notes)])
  {
    if fetch(src).Ok? {
      var name := NameOf(src, conv);
      ReplaceSourceMeaning(t.events, name, StoredRows(fetch(src).value.rows, name, now));
    }
  }

  /** `import_from_source` as `import_from_config` calls it: an exception
      becomes a summary with no rows. */
  method ImportFromSource(db: Database, src: map<string, Json>, conv: Conversions,
                          fetch: map<string, Json> -> Result<SourceBatch>, now: int)
    returns (summary: ImportSummary)
    requires db.Valid()
    modifies db
    ensures db.Valid()
    ensures (Tables(db.events, db.sourceState), summary)
            == ImportOne(Tables(old(db.events), old(db.sourceState)), src, conv, fetch, now)
    ensures db.spots == old(db.spots) && db.signals == old(db.signals)
    ensures db.pois == old(db.pois) && db.zones == old(db.zones) && db.roads == old(db.roads)
  {
    var name := NameOf(src, conv);
    var batch := fetch(src);
    if batch.Err? {
      return FailedSummary(src, conv, batch.error);
    }
    var r := ImportEventRows(db, batch.value.rows, name, batch.value.notes, now);
    match r
    case Ok(n) => summary := ImportSummary(ConnectorId(src, conv), name, n, Some(batch.value.stats), None);
    case Err(e) => summary := FailedSummary(src, conv, e);
  }

  /** The tables and the `imported` list after the loop of
      `import_from_config` has passed over `entries`. */
  datatype Progress = Progress(tables: Tables, imported: seq<ImportSummary>)

  /** Each enabled source is imported in turn, the k-th import reading the
      clock as `clock(k)`; a disabled one is only noted. */
  function ImportEnabled(t: Tables, entries: seq<map<string, Json>>, conv: Conversions,
                         fetch: map<string, Json> -> Result<SourceBatch>, clock: nat -> int): Progress {
    if entries == [] then Progress(t, [])
    else
      var n := |entries| - 1;
      var p := ImportEnabled(t, entries[..n], conv, fetch, clock);
      if Enabled(entries[n]) then
        var (after, summary) := ImportOne(p.tables, entries[n], conv, fetch, clock(|p.imported|));
        Progress(after, p.imported + [summary])
      else p
  }

  /** The `skipped` list: the id (or "unknown") of each disabled source. */
  function Skipped(entries: seq<map<string, Json>>): seq<Json> {
    if entries == [] then []
    else
      var n := |entries| - 1;
      Skipped(entries[..n]) + (if Enabled(entries[n]) then [] else [Get(entries[n], "id", JStr("unknown"))])
  }

  /** The names of the disabled sources. */
  function DisabledNames(entries: seq<map<string, Json>>, conv: Conversions): (names: set<string>)
    ensures forall m :: m in entries && !Enabled(m) ==> NameOf(m, conv) in names
  {
    set m | m in entries && !Enabled(m) :: NameOf(m, conv)
  }

  /** The names of all configured sources, enabled or not. */
  function AllNames(entries: seq<map<string, Json>>, conv: Conversions): (names: set<string>)
    ensures DisabledNames(entries, conv) <= names
  {
    set m | m in entries :: NameOf(m, conv)
  }

  /** Every configured source lands in exactly one of the two lists. */
  lemma {:induction false} EveryEntryCounted(t: Tables, entries: seq<map<string, Json>>, conv: Conversions,
                                             fetch: map<string, Json> -> Result<SourceBatch>, clock: nat -> int)
    ensures |ImportEnabled(t, entries, conv, fetch, clock).imported| + |Skipped(entries)| == |entries|
  {
    if entries != [] {
      EveryEntryCounted(t, entries[..|entries| - 1], conv, fetch, clock);
    }
  }

  /** The two tables of the open-data side. */
  datatype Tables = Tables(events: seq<EventRow>, state: map<string, SourceState>)

  function AfterDisable(t: Tables, disabled: set<string>, now: int): Tables {
    Tables(DeleteSources(t.events, disabled), MarkSources(t.state, disabled, SourceState(now, 0, DisabledNote)))
  }

  function AfterPrune(t: Tables, configNames: set<string>, now: int): Tables {
    var protected := ProtectedOf(None);
    Tables(DeleteSources(t.events, PruneSet(t.events, configNames, protected)),
           MarkSources(t.state, MarkSet(t.state, configNames, protected), SourceState(now, 0, PrunedNote)))
  }

  /** The tables after the imports, the emptying of the disabled sources
      and, when asked, the pruning of the unconfigured ones. */
  function ConfigEffect(t: Tables, entries: seq<map<string, Json>>, conv: Conversions,
                        fetch: map<string, Json> -> Result<SourceBatch>, clock: nat -> int,
                        pruneLegacy: bool, nowDisable: int, nowPrune: int): Tables {
    var imported := ImportEnabled(t, entries, conv, fetch, clock).tables;
    var disabled := AfterDisable(imported, DisabledNames(entries, conv), nowDisable);
    if pruneLegacy then AfterPrune(disabled, AllNames(entries, conv), nowPrune) else disabled
  }

  /** Whether or not pruning follows, and even when an enabled entry of the
      same name imported rows first, a disabled source ends with no events
      and the state "disabled in config" with zero records. */
  lemma DisabledSourceEmptied(t: Tables, entries: seq<map<string, Json>>, conv: Conversions,
                              fetch: map<string, Json> -> Result<SourceBatch>, clock: nat -> int,
                              pruneLegacy: bool, nowDisable: int, nowPrune: int, name: string)
    requires name in DisabledNames(entries, conv)
    ensures var after := ConfigEffect(t, entries, conv, fetch, clock, pruneLegacy, nowDisable, nowPrune);
            && (forall e :: e in after.events ==> e.source != name)
            && name in after.state && after.state[name] == SourceState(nowDisable, 0, DisabledNote)
  {
    var imported := ImportEnabled(t, entries, conv, fetch, clock).tables;
    var d := AfterDisable(imported, DisabledNames(entries, conv), nowDisable);
    assert name in AllNames(entries, conv);
    assert name !in MarkSet(d.state, AllNames(entries, conv), ProtectedOf(None));
  }

  /** A configured source that no entry disables keeps, through the disable
      block and the prune, exactly the events and the state its imports left. */
  lemma ImportedSourceKept(t: Tables, entries: seq<map<string, Json>>, conv: Conversions,
                           fetch: map<string, Json> -> Result<SourceBatch>, clock: nat -> int,
                           pruneLegacy: bool, nowDisable: int, nowPrune: int, name: string)
    requires name in AllNames(entries, conv) && name !in DisabledNames(entries, conv)
    ensures var imported := ImportEnabled(t, entries, conv, fetch, clock).tables;
            var after := ConfigEffect(t, entries, conv, fetch, clock, pruneLegacy, nowDisable, nowPrune);
            && (forall e: EventRow :: e.source == name ==> (e in after.events <==> e in imported.events))
            && (name in after.state <==> name in imported.state)
            && (name in imported.state ==> after.state[name] == imported.state[name])
  {
    var imported := ImportEnabled(t, entries, conv, fetch, clock).tables;
    var d := AfterDisable(imported, DisabledNames(entries, conv), nowDisable);
    var protected := ProtectedOf(None);
    assert name !in PruneSet(d.events, AllNames(entries, conv), protected);
    assert name !in MarkSet(d.state, AllNames(entries, conv), protected);
  }

  datatype ConfigReport = ConfigReport(
    imported: seq<ImportSummary>, skipped: seq<Json>, prunedSources: seq<string>, prunedRows: nat, count: nat)

  /** `import_from_config` on the decoded configuration: `sources` must be a
      list; its objects are the configured sources (anything else in it is
      passed over). The enabled ones are imported in list order, each
      import reading the clock once; then the disabled ones are emptied with
      one clock reading and the prune uses another. */
  method ImportFromConfig(db: Database, sourcesValue: Json, pruneLegacy: bool, conv: Conversions,
                          fetch: map<string, Json> -> Result<SourceBatch>, clock: nat -> int,
                          nowDisable: int, nowPrune: int)
    returns (r: Result<ConfigReport>)
    requires db.Valid()
    modifies db
    ensures db.Valid()
    ensures !sourcesValue.JArr? ==>
              r == Err("config requires 'sources' list")
              && db.events == old(db.events) && db.sourceState == old(db.sourceState)
    ensures sourcesValue.JArr? ==>
              var entries := DictItems(sourcesValue.items);
              var before := Tables(old(db.events), old(db.sourceState));
              && r.Ok?
              && r.value.imported == ImportEnabled(before, entries, conv, fetch, clock).imported
              && r.value.skipped == Skipped(entries)
              && r.value.count == |r.value.imported|
              && Tables(db.events, db.sourceState)
                 == ConfigEffect(before, entries, conv, fetch, clock, pruneLegacy, nowDisable, nowPrune)
              && (!pruneLegacy ==> r.value.prunedSources == [] && r.value.prunedRows == 0)
    ensures sourcesValue.JArr? && pruneLegacy ==>
              var entries := DictItems(sourcesValue.items);
              var before := Tables(old(db.events), old(db.sourceState));
              var d := AfterDisable(ImportEnabled(before, entries, conv, fetch, clock).tables,
                                    DisabledNames(entries, conv), nowDisable);
              var names, protected := AllNames(entries, conv), ProtectedOf(None);
              var toPrune := PruneSet(d.events, names, protected);
              && r.Ok?
              && StrictlyAscending(r.value.prunedSources)
              && (forall x :: x in r.value.prunedSources <==> x in toPrune + MarkSet(d.state, names, protected))
              && r.value.prunedRows == CountSources(d.events, toPrune)
    ensures db.spots == old(db.spots) && db.signals == old(db.signals)
    ensures db.pois == old(db.pois) && db.zones == old(db.zones) && db.roads == old(db.roads)
  {
    if !sourcesValue.JArr? {
      return Err("config requires 'sources' list");
    }
    var sources := sourcesValue.items;
    ghost var entries := DictItems(sources);
    ghost var before := Tables(db.events, db.sourceState);
    var imported, skipped, disabled, allNames := ImportSources(db, sources, conv, fetch, clock);
    ghost var afterImports := Tables(db.events, db.sourceState);
    DisableSources(db, disabled, nowDisable);
    assert Tables(db.events, db.sourceState) == AfterDisable(afterImports, DisabledNames(entries, conv), nowDisable);
    var prunedSources: seq<string> := [];
    var prunedRows := 0;
    if pruneLegacy {
      prunedSources, prunedRows := PruneSourcesNotInConfig(db, allNames, None, nowPrune);
    }
    r := Ok(ConfigReport(imported, skipped, prunedSources, prunedRows, |imported|));
  }

  /** One more element of the `sources` list adds its object, if it is one. */
  lemma ConfigStep(sources: seq<Json>, i: nat)
    requires i < |sources|
    ensures sources[i].JObj? ==> DictItems(sources[..i + 1]) == DictItems(sources[..i]) + [sources[i].fields]
    ensures !sources[i].JObj? ==> DictItems(sources[..i + 1]) == DictItems(sources[..i])
  {
    assert sources[..i + 1] == sources[..i] + [sources[i]];
    DictItemsAppend(sources[..i], [sources[i]]);
    DictItemsSingle(sources[i]);
  }

  /** One more configured source extends the lists by its own entry. */
  lemma EntryStep(t: Tables, entries: seq<map<string, Json>>, m: map<string, Json>, conv: Conversions,
                  fetch: map<string, Json> -> Result<SourceBatch>, clock: nat -> int)
    ensures var p := ImportEnabled(t, entries, conv, fetch, clock);
            ImportEnabled(t, entries + [m], conv, fetch, clock)
            == if Enabled(m) then
                 var (after, summary) := ImportOne(p.tables, m, conv, fetch, clock(|p.imported|));
                 Progress(after, p.imported + [summary])
               else p
    ensures Skipped(entries + [m]) == Skipped(entries) + (if Enabled(m) then [] else [Get(m, "id", JStr("unknown"))])
    ensures DisabledNames(entries + [m], conv)
            == DisabledNames(entries, conv) + (if Enabled(m) then {} else {NameOf(m, conv)})
    ensures AllNames(entries + [m], conv) == AllNames(entries, conv) + {NameOf(m, conv)}
  {
    assert (entries + [m])[..|entries|] == entries;
  }

  /** The tables, lists and sets the loop has built from `entries`. */
  predicate Collected(entries: seq<map<string, Json>>, conv: Conversions,
                      fetch: map<string, Json> -> Result<SourceBatch>, clock: nat -> int, t0: Tables, t: Tables,
                      imported: seq<ImportSummary>, skipped: seq<Json>, disabled: seq<string>, allNames: set<string>) {
    var p := ImportEnabled(t0, entries, conv, fetch, clock);
    && t == p.tables
    && imported == p.imported
    && skipped == Skipped(entries)
    && Members(disabled) == DisabledNames(entries, conv)
    && allNames == AllNames(entries, conv)
  }

  /** An element of the list that is not an object changes nothing. */
  lemma CollectNonObject(sources: seq<Json>, i: nat, conv: Conversions,
                         fetch: map<string, Json> -> Result<SourceBatch>, clock: nat -> int, t0: Tables, t: Tables,
                         imported: seq<ImportSummary>, skipped: seq<Json>, disabled: seq<string>, allNames: set<string>)
    requires i < |sources| && !sources[i].JObj?
    requires Collected(DictItems(sources[..i]), conv, fetch, clock, t0, t, imported, skipped, disabled, allNames)
    ensures Collected(DictItems(sources[..i + 1]), conv, fetch, clock, t0, t, imported, skipped, disabled, allNames)
  {
    ConfigStep(sources, i);
  }

  /** An object adds its name, and either its import or its id and name. */
  lemma CollectObject(sources: seq<Json>, i: nat, conv: Conversions,
                      fetch: map<string, Json> -> Result<SourceBatch>, clock: nat -> int, t0: Tables, t: Tables,
                      imported: seq<ImportSummary>, skipped: seq<Json>, disabled: seq<string>, allNames: set<string>)
    requires i < |sources| && sources[i].JObj?
    requires Collected(DictItems(sources[..i]), conv, fetch, clock, t0, t, imported, skipped, disabled, allNames)
    ensures var m := sources[i].fields;
            var name := NameOf(m, conv);
            if Enabled(m) then
              var (after, summary) := ImportOne(t, m, conv, fetch, clock(|imported|));
              Collected(DictItems(sources[..i + 1]), conv, fetch, clock, t0, after,
                        imported + [summary], skipped, disabled, allNames + {name})
            else
              Collected(DictItems(sources[..i + 1]), conv, fetch, clock, t0, t,
                        imported, skipped + [Get(m, "id", JStr("unknown"))], disabled + [name], allNames + {name})
  {
    var m := sources[i].fields;
    ConfigStep(sources, i);
    EntryStep(t0, DictItems(sources[..i]), m, conv, fetch, clock);
    assert Members(disabled + [NameOf(m, conv)]) == Members(disabled) + {NameOf(m, conv)};
  }

  /** The loop of `import_from_config` over the `sources` list: each enabled
      source is imported as it comes, and the ids and names of the disabled
      ones and the names of all of them are collected. */
  method ImportSources(db: Database, sources: seq<Json>, conv: Conversions,
                       fetch: map<string, Json> -> Result<SourceBatch>, clock: nat -> int)
    returns (imported: seq<ImportSummary>, skipped: seq<Json>, disabled: seq<string>, allNames: set<string>)
    requires db.Valid()
    modifies db
    ensures db.Valid()
    ensures var p := ImportEnabled(Tables(old(db.events), old(db.sourceState)), DictItems(sources), conv, fetch, clock);
            && Tables(db.events, db.sourceState) == p.tables
            && imported == p.imported
    ensures skipped == Skipped(DictItems(sources))
    ensures Members(disabled) == DisabledNames(DictItems(sources), conv)
    ensures allNames == AllNames(DictItems(sources), conv)
    ensures db.spots == old(db.spots) && db.signals == old(db.signals)
    ensures db.pois == old(db.pois) && db.zones == old(db.zones) && db.roads == old(db.roads)
  {
    ghost var t0 := Tables(db.events, db.sourceState);
    imported, skipped, disabled, allNames := [], [], [], {};
    assert Members([]) == {};
    for i := 0 to |sources|
      invariant db.Valid()
      invariant Collected(DictItems(sources[..i]), conv, fetch, clock, t0, Tables(db.events, db.sourceState),
                          imported, skipped, disabled, allNames)
      invariant db.spots == old(db.spots) && db.signals == old(db.signals)
      invariant db.pois == old(db.pois) && db.zones == old(db.zones) && db.roads == old(db.roads)
    {
      if !sources[i].JObj? {
        CollectNonObject(sources, i, conv, fetch, clock, t0, Tables(db.events, db.sourceState),
                         imported, skipped, disabled, allNames);
        continue;
      }
      CollectObject(sources, i, conv, fetch, clock, t0, Tables(db.events, db.sourceState),
                    imported, skipped, disabled, allNames);
      var src := sources[i].fields;
      var name := NameOf(src, conv);
      allNames := allNames + {name};
      if !Enabled(src) {
        skipped := skipped + [Get(src, "id", JStr("unknown"))];
        disabled := disabled + [name];
        continue;
      }
      var summary := ImportFromSource(db, src, conv, fetch, clock(|imported|));
      imported := imported + [summary];
    }
    assert sources[..|sources|] == sources;
  }

  /** The disabled-source block of `import_from_config`: each named source
      loses its events and gets the state "disabled in config" with zero
      records. */
  method DisableSources(db: Database, names: seq<string>, now: int)
    requires db.Valid()
    modifies db
    ensures db.Valid()
    ensures var disabled := Members(names);
            && db.events == DeleteSources(old(db.events), disabled)
            && db.sourceState == MarkSources(old(db.sourceState), disabled, SourceState(now, 0, DisabledNote))
    ensures db.spots == old(db.spots) && db.signals == old(db.signals)
    ensures db.pois == old(db.pois) && db.zones == old(db.zones) && db.roads == old(db.roads)
  {
    var st := SourceState(now, 0, DisabledNote);
    var events, state := db.events, db.sourceState;
    DeleteNothing(events);
    assert Members(names[..0]) == {};
    assert MarkSources(state, {}, st) == state;
    for i := 0 to |names|
      invariant unchanged(db)
      invariant events == DeleteSources(old(db.events), Members(names[..i]))
      invariant state == MarkSources(old(db.sourceState), Members(names[..i]), st)
    {
      var name := names[i];
      DeleteNext(old(db.events), names, i);
      MarkNext(old(db.sourceState), names, i, st);
      events := DeleteSources(events, {name});
      state := state[name := st];
    }
    assert names[..|names|] == names;
    DeleteSourcesValid(old(db.events), Members(names));
    db.events, db.sourceState := events, state;
  }
}
