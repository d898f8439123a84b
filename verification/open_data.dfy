/**
 * The open-data connector's record rules: how a configured source's event
 * type column is mapped onto the four event types, how a JSON document is
 * walked down to its list of records, how each record is read, checked and
 * counted, and how an imported event's id is derived. Reading the source
 * text and decoding CSV or JSON are left to the caller: records arrive as
 * objects of JSON values (a CSV row is an object of strings).
 */
module OpenData {
  import opened Wrappers
  import opened Text
  import opened Json
  import opened Db

  /** `DE_BOUNDS`: the box an imported event must lie in. */
  predicate InDeBounds(lat: real, lon: real) {
    47.0 <= lat <= 55.5 && 5.0 <= lon <= 16.0
  }

  // ------------------------------------------------------ event type mapping

  /** The configured `event_type_map`, keys and values lowercased; a later
      entry whose key lowercases to an earlier one's wins. */
  function LowerTypeMap(pairs: seq<(string, string)>): (m: map<string, string>)
    ensures forall k :: k in m ==> exists i :: 0 <= i < |pairs| && Lower(pairs[i].0) == k
  {
    if pairs == [] then map[]
    else
      var n := |pairs| - 1;
      LowerTypeMap(pairs[..n])[Lower(pairs[n].0) := Lower(pairs[n].1)]
  }

  /** `_map_event_type`: the trimmed, lowercased raw value, replaced by its
      mapping when it has one, replaced by the default only when it is then
      empty; the outcome counts only if it is one of the four event types. */
  function MapEventType(rawValue: string, typeMap: map<string, string>, default: Json): (r: Option<string>)
    ensures r.Some? ==> r.value in EventTypes
  {
    var raw := Lower(Strip(rawValue));
    var mapped := if raw != "" && raw in typeMap then typeMap[raw] else raw;
    if mapped == "" && Truthy(default) then
      (if default.JStr? && default.s in EventTypes then Some(default.s) else None)
    else if mapped in EventTypes then Some(mapped)
    else None
  }

  /** The value `_map_event_type` tests against the four types: the mapped
      raw value, or the default when that is empty and the default is truthy. */
  function TypeCandidate(rawValue: string, typeMap: map<string, string>, default: Json): Json {
    var raw := Lower(Strip(rawValue));
    var mapped := if raw != "" && raw in typeMap then typeMap[raw] else raw;
    if mapped == "" && Truthy(default) then default else JStr(mapped)
  }

  /** `_map_event_type` raises `TypeError` when the value it tests is a list
      or a dict: `in` on the set of types cannot hash it. */
  predicate TypeRaises(rawValue: string, typeMap: map<string, string>, default: Json) {
    Unhashable(TypeCandidate(rawValue, typeMap, default))
  }

  /** A result is returned only for a hashable candidate, and it is the
      candidate itself when that is one of the four types. */
  lemma MapEventTypeCandidate(rawValue: string, typeMap: map<string, string>, default: Json)
    requires !TypeRaises(rawValue, typeMap, default)
    ensures var c := TypeCandidate(rawValue, typeMap, default);
            MapEventType(rawValue, typeMap, default) == if c.JStr? && c.s in EventTypes then Some(c.s) else None
  {
  }

  /** Lowercasing a stripped string keeps it stripped. */
  lemma LowerKeepsStripped(s: string)
    requires Strip(s) == s
    ensures Strip(Lower(s)) == Lower(s)
  {
    var l := Lower(s);
    if s != [] {
      assert l[0] == LowerChar(s[0]) && l[|l| - 1] == LowerChar(s[|s| - 1]);
    }
    StripFixed(l);
  }

  /** Case and surrounding whitespace of the raw value do not matter. */
  lemma MapEventTypeNormalizes(rawValue: string, typeMap: map<string, string>, default: Json)
    ensures MapEventType(rawValue, typeMap, default) == MapEventType(Lower(Strip(rawValue)), typeMap, default)
  {
    var t := Strip(rawValue);
    StripIdempotent(rawValue);
    LowerKeepsStripped(t);
    LowerIdempotent(t);
  }

  /** A value that is already one of the types and has no mapping is kept,
      whatever the default; the default is used only for an empty value. */
  lemma MapEventTypeMeaning(rawValue: string, typeMap: map<string, string>, default: Json)
    ensures var raw := Lower(Strip(rawValue));
            && (raw in EventTypes && raw !in typeMap ==> MapEventType(rawValue, typeMap, default) == Some(raw))
            && (raw != "" && raw in typeMap && typeMap[raw] in EventTypes ==>
                  MapEventType(rawValue, typeMap, default) == Some(typeMap[raw]))
            && (raw == "" && default.JStr? && default.s in EventTypes ==>
                  MapEventType(rawValue, typeMap, default) == Some(default.s))
            && (raw == "" && !Truthy(default) ==> MapEventType(rawValue, typeMap, default).None?)
  {
  }

  // ------------------------------------------------------ JSON path extraction

  /** One step down the path: a key of an object, or nothing (`None`, here
      `JNull`) below anything else. */
  function Step(current: Json, part: string): Json {
    if current.JObj? && part in current.fields then current.fields[part] else JNull
  }

  /** The value at the end of the path, or `JNull` once a step finds nothing. */
  function Walk(current: Json, parts: seq<string>): Json {
    if parts == [] then current
    else
      var next := Step(current, parts[0]);
      if next == JNull then JNull else Walk(next, parts[1..])
  }

  /** The objects of a list, in order. */
  function DictItems(items: seq<Json>): (r: seq<map<string, Json>>)
    ensures |r| <= |items|
    ensures forall m :: m in r ==> JObj(m) in items
  {
    if items == [] then []
    else
      var n := |items| - 1;
      var front := DictItems(items[..n]);
      assert forall m :: m in front ==> JObj(m) in items[..n];
      if items[n].JObj? then front + [items[n].fields] else front
  }

  /** Keeping the objects of a list distributes over concatenation, so every
      object is kept, in its place, and nothing else. */
  lemma {:induction false} DictItemsAppend(a: seq<Json>, b: seq<Json>)
    ensures DictItems(a + b) == DictItems(a) + DictItems(b)
    decreases |b|
  {
    if b == [] {
      assert a + b == a;
    } else {
      var n := |b| - 1;
      assert (a + b)[..|a + b| - 1] == a + b[..n];
      DictItemsAppend(a, b[..n]);
    }
  }

  lemma DictItemsSingle(j: Json)
    ensures DictItems([j]) == if j.JObj? then [j.fields] else []
  {
    assert [j][..0] == [];
  }

  /** `_extract_json_records`: the objects of the list the dotted path leads
      to (the whole document for an empty path). */
  function ExtractRecords(payload: Json, jsonPath: string): seq<map<string, Json>> {
    var target := if jsonPath != "" then Walk(payload, Split(jsonPath, '.')) else payload;
    if target.JArr? then DictItems(target.items) else []
  }

  /** A path with a missing step, or one that leads to anything but a list,
      gives no records. */
  lemma ExtractRecordsEmpty(payload: Json, jsonPath: string)
    ensures var target := if jsonPath != "" then Walk(payload, Split(jsonPath, '.')) else payload;
            !target.JArr? ==> ExtractRecords(payload, jsonPath) == []
  {
  }

  /** `_extract_json_records` as the source writes it: walks `current` down the
      path part by part and stops at the first missing step. */
  method ExtractJsonRecords(payload: Json, jsonPath: string) returns (records: seq<map<string, Json>>)
    ensures records == ExtractRecords(payload, jsonPath)
  {
    var current := payload;
    if jsonPath != "" {
      var parts := Split(jsonPath, '.');
      for i := 0 to |parts|
        invariant current != JNull || i == 0
        invariant Walk(payload, parts) == Walk(current, parts[i..])
      {
        assert parts[i..][1..] == parts[i + 1..];
        current := Step(current, parts[i]);
        if current == JNull {
          return [];
        }
      }
      assert parts[|parts|..] == [];
    }
    if current.JArr? {
      return DictItems(current.items);
    }
    return [];
  }

  // ----------------------------------------------------------- record rules

  /** What the configuration of one source contributes to reading its records:
      the name, the column renames, the per-column defaults, the lowercased
      event type map and the column holding an external id, if any. */
  datatype SourceConfig = SourceConfig(
    sourceName: string,
    fieldMap: map<string, string>,
    defaults: map<string, Json>,
    typeMap: map<string, string>,
    externalIdKey: Option<string>)

  /** The hash and the renderings `_stable_id` puts into its input: SHA-256
      hex digest, `:.6f` of a coordinate and the ISO text of an instant. */
  datatype IdScheme = IdScheme(sha256: string -> string, fixed6: real -> string, isoText: int -> string)

  /** An accepted record, before its id; times are seconds. */
  datatype EventFields = EventFields(eventType: string, lat: real, lon: real, start: int, end: int, risk: int)

  /** A row ready for `import_event_rows`. */
  datatype EventPayload = EventPayload(id: string, fields: EventFields)

  datatype Rejection = InvalidEventType | ParseError | MissingDatetime | OutOfBounds | InvalidWindow

  datatype Outcome = Accept(row: EventPayload) | Reject(reason: Rejection)

  /** `_stable_id`: with a non-empty external id the id hashes only the
      source and that id; otherwise it hashes the source and every field. */
  function StableId(sourceName: string, externalId: Option<string>, f: EventFields, ids: IdScheme): string {
    if externalId.Some? && externalId.value != "" then ids.sha256(sourceName + ":" + externalId.value)
    else
      ids.sha256(sourceName + ":" + f.eventType + ":" + ids.fixed6(f.lat) + ":" + ids.fixed6(f.lon) + ":"
                 + ids.isoText(f.start) + ":" + ids.isoText(f.end) + ":" + IntToString(f.risk))
  }

  /** Records with the same non-empty external id get the same id, whatever
      their other fields. */
  lemma StableIdExternal(sourceName: string, ext: string, f: EventFields, g: EventFields, ids: IdScheme)
    requires ext != ""
    ensures StableId(sourceName, Some(ext), f, ids) == StableId(sourceName, Some(ext), g, ids)
  {
  }

  /** The column a field is read from: its rename, or its own name. */
  function Column(cfg: SourceConfig, field: string): string {
    if field in cfg.fieldMap then cfg.fieldMap[field] else field
  }

  /** `record.get(column, defaults.get(field, fallback))`. */
  function FieldValue(record: map<string, Json>, cfg: SourceConfig, field: string, fallback: Json): Json {
    Get(record, Column(cfg, field), Get(cfg.defaults, field, fallback))
  }

  /** `float(str(value).strip())`. */
  function ReadFloat(v: Json, conv: Conversions): Option<real> {
    conv.floatOf(Strip(PyStr(v, conv)))
  }

  /** `str(value.strip())`: only a string can be stripped; anything else raises. */
  function ReadTime(v: Json): Option<string> {
    if v.JStr? then Some(Strip(v.s)) else None
  }

  /** What the `try` block reads from a record; `None` where it raises. */
  datatype RawRecord = RawRecord(
    lat: Option<real>, lon: Option<real>, start: Option<string>, end: Option<string>, risk: Option<int>)

  function ReadRecord(record: map<string, Json>, cfg: SourceConfig, conv: Conversions): RawRecord {
    RawRecord(
      ReadFloat(FieldValue(record, cfg, "lat", JStr("")), conv),
      ReadFloat(FieldValue(record, cfg, "lon", JStr("")), conv),
      ReadTime(FieldValue(record, cfg, "start_datetime", JStr(""))),
      ReadTime(FieldValue(record, cfg, "end_datetime", JStr(""))),
      ParseInt(Strip(PyStr(FieldValue(record, cfg, "risk_modifier", JStr("0")), conv))))
  }

  predicate Parsed(raw: RawRecord) {
    raw.lat.Some? && raw.lon.Some? && raw.start.Some? && raw.end.Some? && raw.risk.Some?
  }

  /** The record's type check raises. */
  predicate RecordTypeRaises(record: map<string, Json>, cfg: SourceConfig, conv: Conversions) {
    TypeRaises(PyStr(FieldValue(record, cfg, "event_type", JStr("")), conv), cfg.typeMap,
               Get(cfg.defaults, "event_type", JNull))
  }

  function RecordType(record: map<string, Json>, cfg: SourceConfig, conv: Conversions): Option<string> {
    MapEventType(PyStr(FieldValue(record, cfg, "event_type", JStr("")), conv), cfg.typeMap,
                 Get(cfg.defaults, "event_type", JNull))
  }

  /** The external id of a record: the stripped `str()` of its external id
      column, when that column is configured and the record has a non-null
      value there. */
  function ExternalId(record: map<string, Json>, cfg: SourceConfig, conv: Conversions): Option<string> {
    if cfg.externalIdKey.Some? && cfg.externalIdKey.value != "" then
      var v := Get(record, cfg.externalIdKey.value, JNull);
      if v == JNull then None else Some(Strip(PyStr(v, conv)))
    else None
  }

  /** Everything the loop reads from one record before its checks. */
  datatype Reading = Reading(eventType: Option<string>, raw: RawRecord, externalId: Option<string>)

  function ReadingOf(record: map<string, Json>, cfg: SourceConfig, conv: Conversions): (r: Reading)
    ensures r.eventType.Some? ==> r.eventType.value in EventTypes
  {
    Reading(RecordType(record, cfg, conv), ReadRecord(record, cfg, conv), ExternalId(record, cfg, conv))
  }

  /** The checks of one record, in the order event type, reading, missing
      time, bounds, time parsing, window. */
  function Decide(r: Reading, sourceName: string, conv: Conversions, ids: IdScheme): (o: Outcome)
    ensures o.Accept? ==> && Some(o.row.fields.eventType) == r.eventType
                          && InDeBounds(o.row.fields.lat, o.row.fields.lon)
                          && o.row.fields.start < o.row.fields.end
  {
    var raw := r.raw;
    if r.eventType.None? then Reject(InvalidEventType)
    else if !Parsed(raw) then Reject(ParseError)
    else if raw.start.value == "" || raw.end.value == "" then Reject(MissingDatetime)
    else if !InDeBounds(raw.lat.value, raw.lon.value) then Reject(OutOfBounds)
    else
      var start := conv.isoOf(raw.start.value);
      var end := conv.isoOf(raw.end.value);
      if start.None? || end.None? then Reject(ParseError)
      else if end.value <= start.value then Reject(InvalidWindow)
      else
        var f := EventFields(r.eventType.value, raw.lat.value, raw.lon.value, start.value, end.value, raw.risk.value);
        Accept(EventPayload(StableId(sourceName, r.externalId, f, ids), f))
  }

  /** Each rejection happens exactly when the checks before it pass and its
      own fails; an accepted record carries the values read from it. */
  lemma DecideOrder(r: Reading, sourceName: string, conv: Conversions, ids: IdScheme)
    ensures var o := Decide(r, sourceName, conv, ids);
            var raw := r.raw;
            && (o == Reject(InvalidEventType) <==> r.eventType.None?)
            && (o == Reject(MissingDatetime) <==>
                  r.eventType.Some? && Parsed(raw) && (raw.start.value == "" || raw.end.value == ""))
            && (o == Reject(OutOfBounds) <==>
                  && r.eventType.Some? && Parsed(raw)
                  && raw.start.value != "" && raw.end.value != ""
                  && !InDeBounds(raw.lat.value, raw.lon.value))
            && (o == Reject(InvalidWindow) <==>
                  && r.eventType.Some? && Parsed(raw)
                  && raw.start.value != "" && raw.end.value != "" && InDeBounds(raw.lat.value, raw.lon.value)
                  && conv.isoOf(raw.start.value).Some? && conv.isoOf(raw.end.value).Some?
                  && conv.isoOf(raw.end.value).value <= conv.isoOf(raw.start.value).value)
            && (o.Accept? ==>
                  && Some(o.row.fields.lat) == raw.lat && Some(o.row.fields.lon) == raw.lon
                  && Some(o.row.fields.risk) == raw.risk
                  && Some(o.row.fields.start) == conv.isoOf(raw.start.value)
                  && Some(o.row.fields.end) == conv.isoOf(raw.end.value)
                  && o.row.id == StableId(sourceName, r.externalId, o.row.fields, ids))
  {
  }

  /** One iteration of the loop in `import_from_source`. */
  function ProcessRecord(record: map<string, Json>, cfg: SourceConfig, conv: Conversions, ids: IdScheme): (o: Outcome)
    ensures o.Accept? ==> && o.row.fields.eventType in EventTypes
                          && InDeBounds(o.row.fields.lat, o.row.fields.lon)
                          && o.row.fields.start < o.row.fields.end
  {
    Decide(ReadingOf(record, cfg, conv), cfg.sourceName, conv, ids)
  }

  /** The counters of `import_from_source`. */
  datatype Stats = Stats(
    inputRecords: nat, accepted: nat, invalidEventType: nat, parseError: nat,
    missingDatetime: nat, outOfBounds: nat, invalidWindow: nat)

  function Rejected(s: Stats): nat {
    s.invalidEventType + s.parseError + s.missingDatetime + s.outOfBounds + s.invalidWindow
  }

  /** The counter one outcome increments. */
  function Count(s: Stats, o: Outcome): (t: Stats)
    ensures t.inputRecords == s.inputRecords
    ensures t.accepted + Rejected(t) == s.accepted + Rejected(s) + 1
    ensures t.accepted == s.accepted + (if o.Accept? then 1 else 0)
  {
    match o
    case Accept(_) => s.(accepted := s.accepted + 1)
    case Reject(InvalidEventType) => s.(invalidEventType := s.invalidEventType + 1)
    case Reject(ParseError) => s.(parseError := s.parseError + 1)
    case Reject(MissingDatetime) => s.(missingDatetime := s.missingDatetime + 1)
    case Reject(OutOfBounds) => s.(outOfBounds := s.outOfBounds + 1)
    case Reject(InvalidWindow) => s.(invalidWindow := s.invalidWindow + 1)
  }

  /** What the loop reads from each record, in order. */
  function Readings(records: seq<map<string, Json>>, cfg: SourceConfig, conv: Conversions): (rs: seq<Reading>)
    ensures |rs| == |records|
  {
    seq(|records|, i requires 0 <= i < |records| => ReadingOf(records[i], cfg, conv))
  }

  /** Every reading has one of the four types or none. */
  predicate TypesValid(rs: seq<Reading>) {
    forall i :: 0 <= i < |rs| ==> rs[i].eventType.Some? ==> rs[i].eventType.value in EventTypes
  }

  lemma ReadingsTypesValid(records: seq<map<string, Json>>, cfg: SourceConfig, conv: Conversions)
    ensures TypesValid(Readings(records, cfg, conv))
  {
    var rs := Readings(records, cfg, conv);
    forall i | 0 <= i < |rs|
      ensures rs[i].eventType.Some? ==> rs[i].eventType.value in EventTypes
    {
      assert rs[i] == ReadingOf(records[i], cfg, conv);
    }
  }

  /** The counters after the given readings, starting from `input_records`. */
  function StatsAfter(rs: seq<Reading>, input: nat, sourceName: string, conv: Conversions, ids: IdScheme): Stats {
    if rs == [] then Stats(input, 0, 0, 0, 0, 0, 0)
    else
      var n := |rs| - 1;
      Count(StatsAfter(rs[..n], input, sourceName, conv, ids), Decide(rs[n], sourceName, conv, ids))
  }

  /** The rows accepted from the given readings, in record order. */
  function AcceptedRows(rs: seq<Reading>, sourceName: string, conv: Conversions, ids: IdScheme): seq<EventPayload> {
    if rs == [] then []
    else
      var n := |rs| - 1;
      var o := Decide(rs[n], sourceName, conv, ids);
      AcceptedRows(rs[..n], sourceName, conv, ids) + (if o.Accept? then [o.row] else [])
  }

  predicate ValidRows(rows: seq<EventPayload>) {
    forall i :: 0 <= i < |rows| ==>
      rows[i].fields.eventType in EventTypes && InDeBounds(rows[i].fields.lat, rows[i].fields.lon)
      && rows[i].fields.start < rows[i].fields.end
  }

  lemma {:induction false} StatsAfterCounts(rs: seq<Reading>, input: nat, sourceName: string, conv: Conversions, ids: IdScheme)
    ensures StatsAfter(rs, input, sourceName, conv, ids).inputRecords == input
    ensures StatsAfter(rs, input, sourceName, conv, ids).accepted + Rejected(StatsAfter(rs, input, sourceName, conv, ids)) == |rs|
    ensures StatsAfter(rs, input, sourceName, conv, ids).accepted == |AcceptedRows(rs, sourceName, conv, ids)|
  {
    if rs != [] {
      StatsAfterCounts(rs[..|rs| - 1], input, sourceName, conv, ids);
    }
  }

  lemma {:induction false} AcceptedRowsValid(rs: seq<Reading>, sourceName: string, conv: Conversions, ids: IdScheme)
    requires TypesValid(rs)
    ensures ValidRows(AcceptedRows(rs, sourceName, conv, ids))
  {
    if rs != [] {
      var n := |rs| - 1;
      assert TypesValid(rs[..n]) by {
        forall i | 0 <= i < n ensures rs[..n][i] == rs[i] { }
      }
      AcceptedRowsValid(rs[..n], sourceName, conv, ids);
      var o := Decide(rs[n], sourceName, conv, ids);
      var tail := if o.Accept? then [o.row] else [];
      assert ValidRows(tail);
    }
  }

  /** Every record increments exactly one counter, so the accepted and
      rejected counts add up to the input count, the accepted count is the
      number of rows, and every row is a valid event inside the bounds. */
  lemma StatsBalance(records: seq<map<string, Json>>, cfg: SourceConfig, conv: Conversions, ids: IdScheme)
    ensures var rs := Readings(records, cfg, conv);
            var s := StatsAfter(rs, |records|, cfg.sourceName, conv, ids);
            var rows := AcceptedRows(rs, cfg.sourceName, conv, ids);
            && s.inputRecords == |records|
            && s.accepted + Rejected(s) == |records|
            && s.accepted == |rows|
            && ValidRows(rows)
  {
    var rs := Readings(records, cfg, conv);
    StatsAfterCounts(rs, |records|, cfg.sourceName, conv, ids);
    ReadingsTypesValid(records, cfg, conv);
    AcceptedRowsValid(rs, cfg.sourceName, conv, ids);
  }

  /** One more reading adds its outcome's row and counter. */
  lemma ImportStep(rs: seq<Reading>, i: nat, input: nat, sourceName: string, conv: Conversions, ids: IdScheme)
    requires i < |rs|
    ensures var o := Decide(rs[i], sourceName, conv, ids);
            && AcceptedRows(rs[..i + 1], sourceName, conv, ids)
               == AcceptedRows(rs[..i], sourceName, conv, ids) + (if o.Accept? then [o.row] else [])
            && StatsAfter(rs[..i + 1], input, sourceName, conv, ids)
               == Count(StatsAfter(rs[..i], input, sourceName, conv, ids), o)
  {
    assert rs[..i + 1][..i] == rs[..i];
  }

  /** Some record passes `test`. */
  predicate AnyRecord(records: seq<map<string, Json>>, test: map<string, Json> -> bool) {
    records != [] && (AnyRecord(records[..|records| - 1], test) || test(records[|records| - 1]))
  }

  /** A record of a prefix is a record of the whole list. */
  lemma {:induction false} AnyRecordFrom(records: seq<map<string, Json>>, n: nat, test: map<string, Json> -> bool)
    requires n <= |records| && AnyRecord(records[..n], test)
    ensures AnyRecord(records, test)
  {
    if n < |records| {
      var m := |records| - 1;
      assert records[..m][..n] == records[..n];
      AnyRecordFrom(records[..m], n, test);
    } else {
      assert records[..n] == records;
    }
  }

  /** `AnyRecord` holds exactly when some record passes the test. */
  lemma {:induction false} AnyRecordMeaning(records: seq<map<string, Json>>, test: map<string, Json> -> bool)
    ensures AnyRecord(records, test) <==> exists i :: 0 <= i < |records| && test(records[i])
  {
    if records != [] {
      var m := |records| - 1;
      AnyRecordMeaning(records[..m], test);
      assert forall i :: 0 <= i < m ==> records[..m][i] == records[i];
    }
  }

  /** The loop of `import_from_source` over the decoded records. A record
      whose type check raises ends the loop with the `TypeError`, and
      nothing of the source is written. */
  method ImportRecords(records: seq<map<string, Json>>, cfg: SourceConfig, conv: Conversions, ids: IdScheme)
    returns (rows: seq<EventPayload>, stats: Stats, error: Option<string>)
    ensures error.None? <==> forall i :: 0 <= i < |records| ==> !RecordTypeRaises(records[i], cfg, conv)
    ensures error.Some? ==> error == Some(UnhashableError(Get(cfg.defaults, "event_type", JNull)))
    ensures error.None? ==> rows == AcceptedRows(Readings(records, cfg, conv), cfg.sourceName, conv, ids)
    ensures error.None? ==> stats == StatsAfter(Readings(records, cfg, conv), |records|, cfg.sourceName, conv, ids)
  {
    error := None;
    ghost var raises := r => RecordTypeRaises(r, cfg, conv);
    AnyRecordMeaning(records, raises);
    ghost var rs := Readings(records, cfg, conv);
    rows := [];
    stats := Stats(|records|, 0, 0, 0, 0, 0, 0);
    for i := 0 to |records|
      invariant rows == AcceptedRows(rs[..i], cfg.sourceName, conv, ids)
      invariant stats == StatsAfter(rs[..i], |records|, cfg.sourceName, conv, ids)
      invariant !AnyRecord(records[..i], raises)
    {
      if RecordTypeRaises(records[i], cfg, conv) {
        error := Some(UnhashableError(Get(cfg.defaults, "event_type", JNull)));
        assert raises(records[..i + 1][i]);
        AnyRecordFrom(records, i + 1, raises);
        return;
      }
      assert !AnyRecord(records[..i + 1], raises) by {
        assert records[..i + 1][..i] == records[..i];
        assert !raises(records[..i + 1][i]);
      }
      ImportStep(rs, i, |records|, cfg.sourceName, conv, ids);
      assert rs[i] == ReadingOf(records[i], cfg, conv);
      var o := ProcessRecord(records[i], cfg, conv, ids);
      match o
      case Reject(reason) =>
        stats := Count(stats, o);
      case Accept(row) =>
        rows := rows + [row];
        stats := stats.(accepted := stats.accepted + 1);
    }
    assert rs[..|records|] == rs;
    assert records[..|records|] == records;
  }
}
