# StaySense in Dafny

StaySense answers one question for a place to park a camper overnight: how
quiet is this spot likely to be tonight? The backend turns a coordinate and
a reference time into a score from 0 to 100 and a traffic-light category.

- **Base and modifiers.** The score starts at 100. It is adjusted by the
  surrounding area type and by the distance to the nearest police station
  and hospital. A weekend or holiday night costs points, and a working
  night earns some.
- **Local events.** Market, waste-collection, construction and other local
  events are considered when they overlap the morning after the night.
- **Community reports.** Reports of knocking, noise, calm or police visits
  add points that decay with age.
- **Reasons.** The four factors with the largest weight are returned as
  the reasons for the score.
- **Community submissions.** Reports are accepted through a gate. The gate
  validates them, pulls timestamps more than five minutes in the future
  back to now, and enforces a rolling per-device cooldown and a
  one-report-per-day unique index.
- **Admin.** An in-memory session table guards the admin endpoints. Admin
  event payloads are validated before they are stored.
- **Imports.** Two importers fill the tables. The open-data connector maps
  configured CSV/JSON sources to events, counting every accepted and
  rejected record, and replaces a source's events on re-import. The
  OpenStreetMap importer splits Overpass elements into POI, zone and road
  rows.
- **Roadmap scripts.** Two maintenance scripts work from the project
  roadmap. One builds a reminder report that partitions open roadmap issues
  into overdue, upcoming and undated. The other syncs a roadmap CSV into a
  GitHub project board.

The model keeps the program's own shape. The SQLite database is the class
`Db.Database`, whose fields are the tables. Its predicate `Valid` collects
what the schema's CHECK enums, primary keys, foreign keys and the unique
signal index guarantee. The request handlers and importers are methods that
change that object. The admin session table is the class
`Admin.AdminSessions`. The scoring rules, validators, classifiers and
report logic are functions.

Each loop of the program is a method with invariants. Each method is proved
against a function that states what the loop computes, and lemmas about
those functions state the rules.

Some inputs the program takes from its environment are parameters here:

- **Time.** Instants are integer seconds since the Unix epoch in UTC, and
  days are day numbers. Clock readings (`utc_now`, `now_iso`,
  `date.today`) are parameters.
- **Distance.** The great-circle distance is a parameter `dist` that
  returns a non-negative number of metres.
- **Decay.** `0.5 ** x` is a parameter `halving`.
- **Hashes and identifiers.** uuid5, uuid4, HMAC and SHA-256 are
  parameters.
- **Parsing.** Python's `float()` grammar, `datetime.fromisoformat` and
  the `str()` of floats and containers form the `Json.Conversions`
  parameter.
- **Outside calls.** Decoded HTTP bodies, files and `gh` output arrive as
  values.

The modules are:

- `calendar`, `text`, `json`, `sorting`, `factors` and `wrappers`: shared
  building blocks. They cover day numbers and ISO dates, Python string
  operations, JSON values and truthiness, and stable insertion sort.
- `score_engine`: the pure scoring rules of `backend/score_engine.py`.
- `db`: the tables and their invariant.
- `geo_lookup`, `spot_resolver`, `event_factors`, `community`,
  `source_health`, `score_composer`: the scoring pipeline of
  `backend/server.py`.
- `signal_gate`: the community-signal gate.
- `admin`: the session table and the event-payload validation.
- `tile_proxy`: the tile-path validation.
- `open_data` and `open_data_import`: the open-data connector.
- `osm_import`: the OpenStreetMap importer.
- `roadmap_report` and `sync_roadmap`: the two roadmap scripts.

## Model

| member | source | states |
|---|---|---|
| Calendar.EpochDayReference | backend/score_engine.py:127-128 | 1970-01-01 is day 0. 2026-01-01 is day 20454, a Thursday (weekday 3, with Monday 0), which fixes the `weekday()` convention. |
| Calendar.InstantSplit | backend/score_engine.py:115-117 | Every instant is its day number times 86400 plus a second of the day in [0, 86400). The hour of the day is the hour that second falls in. |
| Calendar.ParseIsoDate | scripts/roadmap_reminder_report.py:32-35 | `date.fromisoformat` on the `YYYY-MM-DD` form: a date comes out only for text that is exactly that date's ISO text; anything else is the caught error, none. |
| Calendar.IsoDateRoundTrip | scripts/roadmap_reminder_report.py:131 | Parsing the YYYY-MM-DD text `isoformat` writes for a date gives back that date. |
| Text.LowerIdempotent | scripts/sync_project_roadmap.py:25 | Lowercasing twice is lowercasing once. |
| Text.StripIdempotent | scripts/sync_project_roadmap.py:25 | Stripping whitespace twice is stripping once. |
| Text.ParseIntRoundTrip | backend/server.py:694-696 | `int()` of the decimal text of any integer reads that integer back. |
| Text.JoinSplit | backend/server.py:683 | Splitting a string on a separator and joining the parts with it gives the string back. |
| Text.SplitJoin | backend/server.py:683 | Joining separator-free parts and splitting the result gives the parts back. |
| Text.LexLeTotal | scripts/roadmap_reminder_report.py:144 | Python's string order relates any two strings. |
| Text.LexLeTransitive | scripts/roadmap_reminder_report.py:144 | Python's string order is transitive. |
| Text.LexLeAntisymmetric | scripts/roadmap_reminder_report.py:144 | Two strings each at most the other are equal. |
| Json.ParseIso8601 | backend/server.py:54-60 | A missing or falsy value means now. A truthy value that is not a string is refused, as `.replace` on it raises. |
| Json.TruncReal | backend/server.py:242 | `int()` of a float truncates toward zero, in both directions. |
| Sorting.SortBy | scripts/roadmap_reminder_report.py:144-147 | Sorting keeps the length and the multiset of elements. |
| Sorting.SortBySorted | scripts/roadmap_reminder_report.py:144-147 | Under a total, transitive order the result is sorted. |
| Sorting.SortByStable | scripts/roadmap_reminder_report.py:144-147 | Sorting is stable: the elements equivalent to any key keep their relative order. |
| Sorting.SortedStrings | backend/open_data_connector.py:236-237 | `sorted()` of a set of strings is strictly ascending and holds exactly the set's members, once each. |
| Factors.SumPointsAppend | backend/server.py:483 | The points of a concatenation sum to the sum of the parts' points. |
| ScoreEngine.HolidayDaysAreDates | backend/score_engine.py:6-18 | Each entry of the holiday day-number table is the day number of the corresponding 2026 NRW holiday date, in the same order. |
| ScoreEngine.NearestDistanceM | backend/score_engine.py:76-77 | The result is the floor of the smallest distance. It is at most every distance, and some distance is less than it plus one. |
| ScoreEngine.FirstMinIndex | backend/score_engine.py:87 | `min` with a key picks the first of the minimal candidates. |
| ScoreEngine.ClassifyArea | backend/score_engine.py:80-90 | "residential" exactly when every candidate area is farther than 400 m. Otherwise the first nearest candidate, which is within 400 m. |
| ScoreEngine.ClassifyRoad | backend/score_engine.py:93-96 | "primary" exactly when some main-road point is nearer than 250 m, else "residential". |
| ScoreEngine.RoundHalfEven | backend/score_engine.py:145 | `round()`: the nearest integer, with ties going to the even one. |
| ScoreEngine.RoundHalfEvenNegate | backend/score_engine.py:145 | Rounding commutes with negation. |
| ScoreEngine.SameCellSameSpot | backend/score_engine.py:99-101 | Two points whose coordinates round to the same 4 decimals with the same sign get the same spot id, whatever uuid5 is. |
| ScoreEngine.Fixed4OfGrid | backend/score_engine.py:100 | The `:.4f` text depends only on the rounded 4-decimal grid value and the sign. |
| ScoreEngine.Fixed4DeterminesGrid | backend/score_engine.py:100 | Equal `:.4f` texts mean equal grid values, so the spot key loses nothing beyond the rounding. |
| ScoreEngine.AreaModifier | backend/score_engine.py:104-112 | The key is always "area". The points are positive exactly for industrial, commercial and nature, and negative exactly for residential and parking. Any other type gives the neutral 0-point factor. |
| ScoreEngine.NightWindowFor | backend/score_engine.py:115-124 | The window starts at 22:00:00 and ends 8 h later. It starts on the reference's day, or the day before when the hour is < 6. A night-time reference lies inside the window, and a daytime one precedes it. |
| ScoreEngine.NightWindowExample | backend/tests/test_score_engine.py:17-21 | A reference of 2026-02-15 23:30 gives a window from 22:00 that day to 06:00. |
| ScoreEngine.WeekendOrHolidayMeaning | backend/score_engine.py:127-135 | True exactly when the start is a Friday or Saturday, or its date or the next date is a 2026 NRW holiday. |
| ScoreEngine.WeekendOrHolidayExamples | backend/score_engine.py:127-135 | The night of Thursday 2026-12-24 counts because Christmas Day follows. The night of Wednesday 2026-12-23 does not. |
| ScoreEngine.Decay | backend/score_engine.py:138-141 | An age at or below zero decays by exactly 1.0. |
| ScoreEngine.ClampScore | backend/score_engine.py:144-145 | The result is in [0, 100]. Values ≤ 0 give 0 and values ≥ 100 give 100. In between, it is within 0.5 of the value. |
| ScoreEngine.Ampel | backend/score_engine.py:148-153 | "green" iff score ≥ 70, "yellow" iff 45 ≤ score < 70, "red" iff score < 45. |
| ScoreEngine.ScoreEngineExamples | backend/tests/test_score_engine.py:8-15 | 70 is green, 45 is yellow and 10 is red. -20 clamps to 0 and 120 clamps to 100. |
| GeoLookup.PointsOfKind | backend/server.py:227-239 | The selected points are exactly those of rows of the wanted type. There are none exactly when no row has that type. |
| GeoLookup.NearestFromDb | backend/server.py:233-244 | With rows: the floor of the nearest row distance, and no fallback. Without rows: the floor over the fallback points, flagged as fallback. Without either: 5000, flagged. |
| GeoLookup.NearestScanFirstMin | backend/server.py:254-260 | The strict-less-than scan ends on the first row at minimal distance, with that row's type. If no row is nearer than the 999999 m sentinel, it ends on the initial type. |
| GeoLookup.NearestScanKind | backend/server.py:254-260 | The scan's type is the initial one or some row's type. |
| GeoLookup.NearestWithinMeaning | backend/server.py:254-262 | If all rows are beyond the limit, the default. Otherwise the type of the first nearest row. |
| GeoLookup.AreaChoiceMeaning | backend/server.py:247-262 | An empty zone table defers to `classify_area`. Otherwise: the first nearest zone's type when it is within 500 m, else "residential". |
| GeoLookup.RoadChoiceMeaning | backend/server.py:265-280 | An empty road table defers to `classify_road`. Otherwise: the first nearest road's type when it is within 300 m, else "unknown". |
| GeoLookup.ChoicesFitSpotTable | backend/server.py:290-291 | The area and road types chosen for a new spot satisfy the spot table's CHECK enums. |
| GeoLookup.AreaFromDb | backend/server.py:247-262 | The best-so-far loop returns the area choice. |
| GeoLookup.RoadFromDb | backend/server.py:265-280 | The best-so-far loop returns the road choice. |
| SpotResolver.Resolve | backend/server.py:283-318 | The spot table gains exactly the derived id and keeps every existing row. A known id returns its stored row, with no fallback flag. A new id gets a row at the given point, created now. |
| SpotResolver.ResolveCacheOnce | backend/server.py:284-288 | Resolving a point in the same cell again returns the first row unchanged and leaves the table as it is, whatever the OSM tables hold by then. |
| SpotResolver.FreshSpotFallback | backend/server.py:293-317 | `used_fallback_pois` holds exactly when the POI table has no police, no fire or no hospital row. |
| SpotResolver.StoreSpot | backend/server.py:297-306 | The insert adds the row under its id, changes no other table and keeps the invariant. |
| SpotResolver.EnsureSpot | backend/server.py:283-318 | The returned spot and the new spot table are what `Resolve` gives. All other tables are unchanged. |
| EventFactors.MorningEvents | backend/server.py:322-334 | Keeps exactly the events with start ≤ night end + 4 h and end ≥ night end. |
| EventFactors.MorningEventsCount | backend/server.py:322-334 | Each matching row is returned as often as the table holds it, and no other row at all. |
| EventFactors.MorningEventsAppend | backend/server.py:322-334 | The query keeps table order: the result over a concatenation is the two results, one after the other. |
| EventFactors.MorningBoundaries | backend/server.py:330-333 | Both window bounds are inclusive. An event ending before the night end, or starting more than 4 h after it, is excluded. |
| EventFactors.FactorsOf | backend/server.py:362-369 | One factor per kept event, in the events' order, each built from its own event. |
| EventFactors.KeptAreNear | backend/server.py:338-341 | Every kept event is one of the rows and lies within 1000 m. |
| EventFactors.KeptKeysDistinct | backend/server.py:350-360 | No two kept events share a dedupe key. |
| EventFactors.KeptCoverNearKeys | backend/server.py:338-360 | The kept events' keys are exactly the keys of the near events. |
| EventFactors.KeptCount | backend/server.py:350-360 | The number of kept events equals the number of their distinct keys. |
| EventFactors.KeptIsFirstNears | backend/server.py:336-370 | The rows the loop keeps are exactly, in input order, the rows within 1000 m whose key no earlier row within 1000 m has. |
| EventFactors.KeptMeaning | backend/server.py:321-370 | The kept events are the first near occurrence of each key, in input order. They are near, have distinct keys, and give one factor per distinct near key. |
| EventFactors.CollectLocalEventFactors | backend/server.py:321-370 | The loop with its `seen` set returns the factors of the deduplicated near morning events. |
| Community.BucketOf | backend/server.py:386-391 | A signal type has a bucket exactly when it is knock, noise, calm or police. |
| Community.RecentSignals | backend/server.py:374-384 | Keeps exactly the spot's signals that are at most 30 days old. |
| Community.AgeDays | backend/server.py:400 | The age is never negative, and it is 0 for a signal at or after the reference time. |
| Community.SumByType | backend/server.py:393-403 | The `by_type` loop yields, for each of the four types, the sum of that type's decayed contributions within its window. |
| Community.CollectCommunityFactors | backend/server.py:373-418 | The result is the community factors of the spot's recent signals. |
| Community.FactorKeyInjective | backend/server.py:412 | Different signal types get different factor keys. |
| Community.FactorsForMeaning | backend/server.py:405-418 | A type's factor is emitted exactly when the type is listed and its total has magnitude ≥ 0.5. It then carries that total. All factors have source "community". |
| Community.FactorsForDistinct | backend/server.py:405-418 | At most one factor per type. |
| Community.CommunityFactorsMeaning | backend/server.py:393-418 | At most four factors, with distinct keys. Each appears exactly when its type's total has magnitude ≥ 0.5, and carries that total. |
| Community.FactorsForSameTotals | backend/server.py:405-418 | The factors depend on the signals only through the four per-type totals. |
| Community.IgnoredSignal | backend/server.py:395-402 | A signal of an unknown type, or older than its type's window, changes nothing. |
| Community.FreshKnock | backend/server.py:386-403 | One knock report at the reference time yields exactly the -25-point "Klopfen gemeldet" factor. |
| ScoreComposer.SpotFactorsSum | backend/server.py:467-478 | The spot factors sum to the area points, -15 for police closer than 200 m, -10 for a hospital closer than 200 m, and -10 on a weekend/holiday or else +5. |
| ScoreComposer.ByMagnitudeOrder | backend/server.py:486 | Ordering by descending absolute points is total and transitive. |
| ScoreComposer.TopFactors | backend/server.py:486 | Keeps min(4, n) factors. |
| ScoreComposer.TopFactorsMeaning | backend/server.py:486 | The reasons form a sub-multiset of the factors, sorted by descending magnitude. No left-out factor outweighs a kept one. The kept factors of each magnitude are the first factors of that magnitude, in insertion order. |
| ScoreComposer.SignedIntReadsBack | backend/server.py:487 | The `:+.0f` text of the points reads back as their round-half-even integer. |
| ScoreComposer.SignedIntSign | backend/server.py:487 | The text starts with "-" exactly for negative points, and otherwise with "+". |
| ScoreComposer.ReasonTextMeaning | backend/server.py:487 | A reason is the label, " (", the signed rounded points and ")". |
| ScoreComposer.Reasons | backend/server.py:487 | One reason text per top factor, in order. |
| ScoreComposer.AllFactorsSum | backend/server.py:465-483 | All factors sum to the spot points plus the event-factor points plus the community-factor points. |
| ScoreComposer.ScoreOf | backend/server.py:483-484 | The score is in [0, 100]. |
| ScoreComposer.ScoreBreakdown | backend/server.py:465-484 | The score is the clamp of 100 plus the spot, event and community points. |
| ScoreComposer.PayloadOf | backend/server.py:483-507 | The payload's score is in [0, 100], and its category is that score's traffic light. It has at most four factors and one reason per factor. |
| ScoreComposer.ComputeScorePayload | backend/server.py:458-507 | The spot table changes as `Resolve` says. The payload is composed from the night window, the factors of the pre-call tables and the source health. The sources are newest first and name each `data_source_state` row once. |
| ScoreComposer.FirstValue | backend/server.py:512-514 | A missing query key reads as the empty string. |
| ScoreComposer.ParseScoreQuery | backend/server.py:510-521 | Accepted points lie in the lat [47, 55.5] / lon [5, 16] box. Errors are `invalid_query` or `lat_lon_out_of_bounds`. Without `at`, the time is now. Missing lat or lon reads as the empty text, which is `invalid_query` unless the float conversion accepts it. |
| ScoreComposer.HandleScore | backend/server.py:510-524 | A rejected query answers its error and touches no table. An accepted one changes only the spot table, as `Resolve` says. It answers the payload `compute_score_payload` composes for the resolved spot: the night window of that time, every factor over the pre-call event and signal tables, and the sources newest first with their health. |
| SourceHealth.ListingMeaning | backend/server.py:421-426 | Listing the state table's names once each gives one row per source, with distinct names. |
| SourceHealth.DataSourceMeta | backend/server.py:421-426 | The rows are sorted newest import first, are exactly the state table's entries and have distinct names. |
| SourceHealth.AgeHours | backend/server.py:437-440 | The age in hours is never negative, and it is 0 for a future import. |
| SourceHealth.AgesMeaning | backend/server.py:433-441 | The ages are exactly those of the sources whose import time parses. |
| SourceHealth.StaleNamesMeaning | backend/server.py:442-443 | The stale names are exactly the names of ages over 24 h. |
| SourceHealth.MinHours | backend/server.py:448 | The minimum age is one of the ages and at most each of them. |
| SourceHealth.MaxHours | backend/server.py:449 | The maximum age is one of the ages and at least each of them. |
| SourceHealth.Round2 | backend/server.py:451-452 | Rounding to 2 decimals moves a value by at most 0.005. |
| SourceHealth.Round2Monotone | backend/server.py:448-452 | Rounding to 2 decimals keeps non-negative values ordered. |
| SourceHealth.HealthMeaning | backend/server.py:429-455 | `has_data` holds iff some import time parses, and otherwise the report is empty. The freshest age is at most the stalest, and every age lies between them up to rounding. The stale list names exactly the sources older than 24 h. |
| SourceHealth.StaleSourcesMeaning | backend/server.py:433-443 | A name is stale exactly when some source with a parsable time and that name is older than 24 h. |
| SourceHealth.SourceHealthOf | backend/server.py:429-455 | The loop computes the health report. |
| SourceHealth.StampsOf | backend/server.py:461-462 | One import stamp per listed source, in order. |
| SignalGate.ParseSubmission | backend/server.py:527-547 | An unreadable body is `invalid_json`. A checked submission has a non-empty spot id, a known signal type and a token of at least 16 characters. |
| SignalGate.RejectionOrder | backend/server.py:534-547 | `spot_id_required`, `invalid_signal_type` and `invalid_device_token` each occur exactly when all earlier checks pass and their own fails. A submission passing all three keeps its parsed timestamp. |
| SignalGate.ClampFuture | backend/server.py:550-552 | A timestamp more than 5 minutes ahead becomes now. Any other is kept. |
| SignalGate.LatestSince | backend/server.py:562-573 | No result exactly when no signal of that spot and device lies in the cooldown window. Otherwise, the latest such timestamp. |
| SignalGate.Decide | backend/server.py:549-614 | An accepted row carries the clamped time, its day bucket and the hashed token. It belongs to a known spot, clashes with no stored id or day bucket, and has no same-device signal in the cooldown window. A cooldown refusal names the latest in-window signal's time plus the cooldown. |
| SignalGate.DecideMeaning | backend/server.py:549-614 | `unknown_spot_id` exactly for an unknown spot. `cooldown_active` exactly for a known spot with a same-device signal in the window, answered with the latest one's time plus the cooldown. `daily_limit` exactly when the insert is refused and there is no such signal. Acceptance of the new row in every other case. |
| SignalGate.DailyLimitOnlyOnIdClash | backend/server.py:588-614 | With a cooldown of at least 24 h, `daily_limit` can only come from an id clash. The day-bucket index is then never what refuses. |
| SignalGate.SecondReportWithinCooldown | backend/server.py:554-586 | A second report one hour after the first is refused with `cooldown_active`, next allowed 24 h after the first. |
| SignalGate.SecondReportAfterCooldown | backend/server.py:554-604 | A second report 25 hours after the first is accepted. |
| SignalGate.AppendKeepsValid | backend/db.py:113-114 | Appending a row that clashes with no id or (spot, device, day) bucket keeps the signal table valid. |
| SignalGate.StoreSignal | backend/server.py:589-604 | The insert appends exactly that row and changes nothing else. |
| SignalGate.DecideAndStore | backend/server.py:549-614 | The outcome is the gate's decision on the pre-call tables. The signal table grows by the row exactly when the report is accepted. |
| SignalGate.HandleSignal | backend/server.py:527-623 | Parsing, then the gate. Only an accepted report changes the signal table. |
| Admin.Unexpired | backend/server.py:174-178 | Keeps exactly the sessions that expire after now, unchanged. |
| Admin.UnexpiredLater | backend/server.py:174-178 | A later cleanup subsumes an earlier one. |
| Admin.BearerToken | backend/server.py:183-186 | A token exists exactly when the header starts with "Bearer ". It is the stripped rest of the header. |
| Admin.AuthMeaning | backend/server.py:181-193 | Authorised exactly when a bearer token names a session alive at both clock readings, and then as its user. `missing_token`, `invalid_token` and `expired_token` each have their exact condition. The table loses only sessions expired at cleanup, plus the presented token when it has expired by the check. |
| Admin.NoExpiredTokenWithOneClock | backend/server.py:181-193 | With one clock reading, `expired_token` never occurs. |
| Admin.CreatedSessionAuthorizes | backend/server.py:164-193 | A freshly created session authorises its bearer as its user until it expires. |
| Admin.LogoutToken | backend/server.py:788-793 | Logout names the bearer token, or nothing without a "Bearer " prefix. |
| Admin.AdminSessions.constructor | backend/server.py:47 | The session table starts empty. |
| Admin.AdminSessions.CreateSession | backend/server.py:164-171 | Adds the token with an expiry `ADMIN_SESSION_HOURS` ahead and returns it. |
| Admin.AdminSessions.Cleanup | backend/server.py:174-178 | The loop removes exactly the expired sessions. |
| Admin.AdminSessions.Auth | backend/server.py:181-193 | Answers and updates the table as `AuthDecision` says. |
| Admin.AdminSessions.Logout | backend/server.py:788-793 | Removes the named session, if any, and nothing else. |
| Admin.LogoutThenAuthRefused | backend/server.py:788-793 | After logout, the same header is refused as `invalid_token`. |
| Admin.ReadEvent | backend/server.py:196-205 | The event type has no leading whitespace. Missing times read as the clock, and a missing lat reads as absent. |
| Admin.ParseAdminEvent | backend/server.py:196-224 | An accepted event has a valid type, lies in the box, has start < end, a risk modifier in [-50, 50] and a non-empty source. Errors are the five named codes. |
| Admin.AdminEventOrder | backend/server.py:196-224 | Each refusal occurs exactly when all earlier checks pass and its own fails. An accepted event carries the payload's values. |
| Admin.AdminEventSource | backend/server.py:203 | A missing source becomes "admin_manual". A given source with non-blank text is kept, stripped. |
| Admin.MissingTimesRefused | backend/server.py:196-216 | A payload with a valid type but neither time, read at one instant, is refused, because its window is empty. |
| TileProxy.StripSlashes | backend/server.py:683 | `strip("/")` leaves no slash at either end. |
| TileProxy.RouteNumbers | backend/server.py:701-708 | A fetch happens exactly for z in [0, 19] and x, y in [0, 2^z - 1]. Otherwise the error is one of the three codes. |
| TileProxy.RouteParts | backend/server.py:688-708 | Well-formed parts never answer not-found, and any fetched tile is valid. |
| TileProxy.RouteTile | backend/server.py:682-708 | Not found exactly when the stripped path does not split into `map/tile/z/x/y`. Any fetched tile is valid. |
| TileProxy.RouteFiveParts | backend/server.py:683-684 | A path `/map/tile/z/x/y` splits back into its five parts. |
| TileProxy.LastPartReadsBack | backend/server.py:696 | `y.png` ends in ".png", and dropping the suffix reads y back. |
| TileProxy.TilePartsRoute | backend/server.py:688-708 | The texts of a valid tile's numbers route to that tile. |
| TileProxy.TilePathRoundTrip | backend/server.py:682-708 | The path of any valid tile routes to a fetch of exactly that tile. |
| TileProxy.NotPngRefused | backend/server.py:689-691 | A last part not ending in ".png" is `invalid_tile_path`. |
| TileProxy.TilePartsZoomRefused | backend/server.py:701-703 | A zoom above 19 is `invalid_zoom`. |
| TileProxy.ZoomAboveMaxRefused | backend/server.py:701-703 | The path of a tile with zoom above 19 is refused as `invalid_zoom`. |
| TileProxy.UpstreamUrl | backend/server.py:710-711 | The upstream URL starts with the configured base and ends in ".png". |
| OpenData.LowerTypeMap | backend/open_data_connector.py:132 | Every key of the lowercased type map is the lowercase of a configured key. |
| OpenData.MapEventType | backend/open_data_connector.py:36-44 | The result, if any, is one of the four event types. |
| OpenData.MapEventTypeCandidate | backend/open_data_connector.py:36-44 | When the tested value is hashable, the result is that value exactly when it is one of the four types. The tested value is the mapped raw value, or the truthy default when that is empty. |
| OpenData.MapEventTypeNormalizes | backend/open_data_connector.py:37 | The mapping sees only the trimmed, lowercased input. |
| OpenData.MapEventTypeMeaning | backend/open_data_connector.py:36-44 | A valid, unmapped type passes through, and a present key is mapped. An empty value takes a valid default, or gives no type without one. |
| OpenData.DictItems | backend/open_data_connector.py:58 | Keeps at most the list's elements, each an object element of the list. |
| OpenData.ExtractRecordsEmpty | backend/open_data_connector.py:47-59 | If the path does not lead to a list, there are no records. |
| OpenData.ExtractJsonRecords | backend/open_data_connector.py:47-59 | The path walk returns the object elements of the list the path reaches. A missing component gives []. |
| OpenData.StableIdExternal | backend/open_data_connector.py:25-33 | With a non-empty external id, the id does not depend on any field. |
| OpenData.ReadingOf | backend/open_data_connector.py:157-177 | The mapped type of a reading, if any, is valid. |
| OpenData.Decide | backend/open_data_connector.py:166-219 | An accepted row has the mapped type, lies inside `DE_BOUNDS` and has start < end. |
| OpenData.DecideOrder | backend/open_data_connector.py:166-219 | Each rejection occurs exactly when the earlier checks pass and its own fails. An accepted row carries the parsed values and its stable id. |
| OpenData.ProcessRecord | backend/open_data_connector.py:157-219 | An accepted record is valid, inside the bounds and has start < end. |
| OpenData.Count | backend/open_data_connector.py:148-156 | Each outcome increments exactly one counter. |
| OpenData.StatsAfterCounts | backend/open_data_connector.py:147-219 | `input_records` is fixed. Accepted plus rejected equals the number of readings, and accepted equals the number of rows. |
| OpenData.AcceptedRowsValid | backend/open_data_connector.py:182-218 | Every accepted row has a valid type, lies in the bounds and has start < end. |
| OpenData.StatsBalance | backend/open_data_connector.py:147-219 | Accepted + all rejected = input_records = number of records, accepted = len(rows), and all rows are valid. |
| OpenData.ImportRecords | backend/open_data_connector.py:157-219 | The loop raises the `TypeError` exactly when some record's type check tests a list or dict default. Otherwise it returns exactly the accepted rows and the statistics. |
| OpenDataImport.StoredRows | backend/open_data_connector.py:77-95 | The rows stored have valid types, the source's name and the import time. |
| OpenDataImport.StoredRowsMeaning | backend/open_data_connector.py:77-95 | A row is stored exactly when it comes from an item whose type is valid. |
| OpenDataImport.DeleteSources | backend/open_data_connector.py:98 | Keeps exactly the events of the other sources. |
| OpenDataImport.CountedOrKept | backend/open_data_connector.py:241-243 | Deleted plus kept events make up the whole table. |
| OpenDataImport.DeleteSourcesTwice | backend/open_data_connector.py:240-243 | Deleting two groups in turn deletes their union. |
| OpenDataImport.ReplaceSourceMeaning | backend/open_data_connector.py:97-107 | After a replace, the source's events are exactly the new rows. Other sources are untouched. |
| OpenDataImport.LastImportWins | backend/open_data_connector.py:97-107 | Importing a source twice leaves only the second import. |
| OpenDataImport.MarkSources | backend/open_data_connector.py:244-255 | The upsert sets the marked names to the new state and leaves all other entries. |
| OpenDataImport.ImportEventRows | backend/open_data_connector.py:73-120 | On success, the source's events become the valid rows, its state records the count and the import time, and the count is returned. If the ids would clash, neither table changes. |
| OpenDataImport.EventSources | backend/open_data_connector.py:231-232 | Every event's source is listed. |
| OpenDataImport.ProtectedOf | backend/open_data_connector.py:229 | A given non-empty protected set is used. Otherwise {"osm_overpass"}. |
| OpenDataImport.PruneMeaning | backend/open_data_connector.py:228-257 | Pruning keeps exactly the events of configured or protected sources. Configured or protected names are never pruned or marked. |
| OpenDataImport.PruneSourcesNotInConfig | backend/open_data_connector.py:228-257 | Deletes the events of (existing − config) − protected and counts them. Marks the leftover state rows pruned. Returns the names in ascending order, once each. |
| OpenDataImport.DeleteEach | backend/open_data_connector.py:240-243 | The delete loop removes exactly the named sources' events and counts them. |
| OpenDataImport.MarkEach | backend/open_data_connector.py:244-255 | The upsert loop marks exactly the named sources. |
| OpenDataImport.NameOf | backend/open_data_connector.py:273 | A non-empty `source_name` wins. With neither `source_name` nor `id`, the name is "open_data_source". The name is taken as text: this is the corrected reading (see "## Findings"). |
| OpenDataImport.AsWrittenNameOf | backend/open_data_connector.py:273-274 | The name as the program keeps it: a truthy raw JSON value, or "open_data_source". |
| OpenDataImport.StoredName | backend/db.py:90 | The text a TEXT column stores for a string, an integer or a boolean. |
| OpenDataImport.AsWrittenPruneSet | backend/open_data_connector.py:231-237 | A stored source is pruned exactly when it is not protected and no configured value is that very string, so a numeric configured value never matches. |
| OpenDataImport.NumericIdPrunedByOwnRun | backend/open_data_connector.py:231-237 | A source configured by the integer id 7 stores its events as "7", and the prune as written deletes them. With the name taken as text, the source is configured as "7" and is not pruned. |
| OpenDataImport.SourceSetup | backend/open_data_connector.py:124-145 | A source needs a url or file. Its format, lowercased, must be csv or json. The two error texts are the program's. |
| OpenDataImport.DisabledNames | backend/open_data_connector.py:275-277 | Every disabled entry's name is listed. |
| OpenDataImport.AllNames | backend/open_data_connector.py:273-274 | Every disabled name is also a configured name. |
| OpenDataImport.ImportOneMeaning | backend/open_data_connector.py:73-120 | A failed import of one source, raised or refused by the unique key, leaves both tables as they were and reports 0 rows with its error. For a unique-key refusal, that error is SQLite's "UNIQUE constraint failed: open_data_event.id". A successful one gives the source exactly the stored rows of its batch and leaves every other source's events. The ids stay distinct, and the state records the time, the row count and the note. |
| OpenDataImport.ImportFromSource | backend/open_data_connector.py:221-225 | The tables and the summary are those of the one-source import, whose error on a unique-key refusal is SQLite's message. |
| OpenDataImport.EveryEntryCounted | backend/open_data_connector.py:270-289 | Every object entry is either imported or skipped. |
| OpenDataImport.DisabledSourceEmptied | backend/open_data_connector.py:291-306 | After the run, a disabled source has no events, and its state is 0 records with the note "disabled in config", with or without pruning. This holds even when an enabled entry of the same name imported rows first. |
| OpenDataImport.ImportedSourceKept | backend/open_data_connector.py:291-317 | A configured source that no entry disables keeps exactly the events and the state its imports left, through the disable block and the prune. |
| OpenDataImport.ImportSources | backend/open_data_connector.py:266-289 | The config loop imports each enabled source in list order into the tables. It collects the summaries, the skipped ids, the disabled names and all names. |
| OpenDataImport.DisableSources | backend/open_data_connector.py:291-306 | Deletes the disabled sources' events and resets their state. |
| OpenDataImport.ImportFromConfig | backend/open_data_connector.py:260-317 | A non-list `sources` is refused and changes nothing. Otherwise the enabled sources are imported in order, then the disabled ones are emptied, then optionally the unconfigured ones are pruned. The report lists the imports and skips. Without pruning, nothing is reported pruned. With pruning, the pruned sources are, in ascending order, exactly the unconfigured, unprotected sources that have events or state after the disable block, and the pruned row count is the number of their events. |
| OsmImport.PairOf | backend/import_osm_overpass.py:62-66 | Coordinates exist exactly when both values convert to floats. |
| OsmImport.ElementCoords | backend/import_osm_overpass.py:61-67 | The element's own lat/lon come first, then its center's. Otherwise there are no coordinates. |
| OsmImport.MapPoi | backend/import_osm_overpass.py:70-78 | police/fire/hospital exactly for amenity police/fire_station/hospital. Otherwise none. |
| OsmImport.MapZone | backend/import_osm_overpass.py:81-97 | The type is a valid area. There is none exactly when no landuse, parking, natural or nature_reserve tag matches. |
| OsmImport.MapZonePriority | backend/import_osm_overpass.py:87-96 | landuse beats parking, parking beats nature, and nature needs a natural or leisure tag. |
| OsmImport.MapRoad | backend/import_osm_overpass.py:100-104 | The highway value passes through exactly when it is primary, secondary, residential or service. |
| OsmImport.ElementRows | backend/import_osm_overpass.py:127-146 | An element without coordinates yields no rows. A coordinate that fails to convert aborts. |
| OsmImport.ElementRowsMeaning | backend/import_osm_overpass.py:133-146 | An element yields at most one row per table. Each row carries the table's prefix on the shared base id, a valid type, the source "osm_overpass" and the import time. |
| OsmImport.SplitElementsMeaning | backend/import_osm_overpass.py:127-146 | All rows are well-formed, and no table gets more rows than there are elements. |
| OsmImport.OneElementThreeRows | backend/import_osm_overpass.py:136-146 | A police amenity in a residential zone on a primary road yields one POI, one zone and one road row, on the same base id. |
| OsmImport.ErrSticks | backend/import_osm_overpass.py:129 | Once an element fails to convert, the whole split fails with that error. |
| OsmImport.SplitOsmElements | backend/import_osm_overpass.py:127-146 | The append loop computes the split. |
| OsmImport.WithoutSource | backend/import_osm_overpass.py:149-151 | Keeps exactly the rows of other sources. |
| OsmImport.ReplacedMeaning | backend/import_osm_overpass.py:148-173 | After a replace, the osm_overpass rows are exactly the new ones. Other rows are untouched. |
| OsmImport.ReplacedValid | backend/import_osm_overpass.py:148-173 | With distinct ids, the replaced table stays valid. |
| OsmImport.StoreSplit | backend/import_osm_overpass.py:148-186 | With distinct ids, the three tables are replaced and the state records the total count. Otherwise nothing changes. |
| OsmImport.ImportOsm | backend/import_osm_overpass.py:115-193 | A conversion error changes nothing. A stored import returns the element count and the three row counts. Other tables are untouched. |
| RoadmapReport.ParseDate | scripts/roadmap_reminder_report.py:24-35 | A date found is valid, and the stripped text cut at its first "T" is exactly that date's `YYYY-MM-DD` text, so any other spelling gives none. None or blank text gives none. |
| RoadmapReport.ParseDateIso | scripts/roadmap_reminder_report.py:33 | The ISO text of a date parses back to it. |
| RoadmapReport.ParseDateTimestamp | scripts/roadmap_reminder_report.py:31-32 | With a "T", only the date before it counts. |
| RoadmapReport.RoadmapIssues | scripts/roadmap_reminder_report.py:55-63 | The filter keeps at most the given issues. |
| RoadmapReport.RoadmapIssuesMeaning | scripts/roadmap_reminder_report.py:56-62 | Keeps exactly the issues labelled "roadmap" and not "roadmap-report". |
| RoadmapReport.FetchOpenRoadmapIssues | scripts/roadmap_reminder_report.py:38-63 | The loop computes the filter. |
| RoadmapReport.SourceLabel | scripts/roadmap_reminder_report.py:119-120 | "target date" exactly with a target date. "-" exactly without a deadline. Otherwise "milestone", whose due date is then the deadline. |
| RoadmapReport.PriorityText | scripts/roadmap_reminder_report.py:128 | The board priority, or "-" when there is none (corrected). |
| RoadmapReport.RowOf | scripts/roadmap_reminder_report.py:113-134 | The deadline is the target date, else the milestone date. Its text is ISO or "-", and the days left are the difference to today. The Prio cell is the corrected `PriorityText` ("-" for an empty board priority, where the program shows "None"; see "## Findings"). |
| RoadmapReport.RowsOf | scripts/roadmap_reminder_report.py:113-135 | One row per issue, in order. |
| RoadmapReport.BucketOf | scripts/roadmap_reminder_report.py:137-142 | no-deadline iff no days left. Overdue iff < 0. Upcoming iff in [0, N]. |
| RoadmapReport.InBucket | scripts/roadmap_reminder_report.py:137-142 | A bucket never holds more rows than there are. |
| RoadmapReport.InBucketMeaning | scripts/roadmap_reminder_report.py:137-142 | A bucket holds exactly the rows that fall in it. |
| RoadmapReport.BucketsPartition | scripts/roadmap_reminder_report.py:137-142 | Every row falls in exactly one of overdue, upcoming, no-deadline or later. |
| RoadmapReport.AllRowsOrder | scripts/roadmap_reminder_report.py:144 | The all-rows key order is total and transitive. |
| RoadmapReport.DeadlineOrder | scripts/roadmap_reminder_report.py:145-146 | The (deadline, number) order is total and transitive. |
| RoadmapReport.ReportCounts | scripts/roadmap_reminder_report.py:156-159 | The open count is the all-rows length, and the three sections together hold at most that many rows. |
| RoadmapReport.ReportLists | scripts/roadmap_reminder_report.py:113-147 | All rows are the issues' rows. Each section holds exactly the rows of its condition. |
| RoadmapReport.ReportSorted | scripts/roadmap_reminder_report.py:144-147 | Each section is sorted by its key, and dated rows precede undated ones. |
| RoadmapReport.BuildReport | scripts/roadmap_reminder_report.py:104-147 | The loop and the sorts compute the report. Its rows are `RowOf`'s, so the Prio cell uses the corrected `PriorityText`. |
| RoadmapReport.TitleCell | scripts/roadmap_reminder_report.py:176 | Same length and no "\|" left. Every other character is kept in place. |
| RoadmapReport.Cells | scripts/roadmap_reminder_report.py:175-180 | Eight cells, the title cell second. |
| RoadmapReport.TableLineCells | scripts/roadmap_reminder_report.py:177-180 | A table line splits on "\|" into exactly its eight cells. |
| RoadmapReport.AsWrittenPriority | scripts/roadmap_reminder_report.py:128 | As written, an empty board priority gives None, and only a missing board entry gives "-". |
| RoadmapReport.AsWrittenKeyLess | scripts/roadmap_reminder_report.py:144 | The as-written comparison of two sort keys, which raises when it reaches None against a string. Keys with equal priority texts always compare. |
| RoadmapReport.MissingPriorityBreaksSort | scripts/roadmap_reminder_report.py:113-144 | Two undated issues, one with an empty board priority, make the as-written sort raise `TypeError`. The corrected order sorts them. |
| SyncRoadmap.KeepAlnum | scripts/sync_project_roadmap.py:25 | Keeps only alphanumeric characters. |
| SyncRoadmap.Normalize | scripts/sync_project_roadmap.py:24-25 | The result is all alphanumeric. |
| SyncRoadmap.NormalizeMeaning | scripts/sync_project_roadmap.py:24-25 | The result is the alphanumerics of the lowercased input, since trimming removes none of them, and has no upper-case letter. |
| SyncRoadmap.NormalizeIdempotent | scripts/sync_project_roadmap.py:24-25 | Normalising twice is normalising once. |
| SyncRoadmap.MetaLines | scripts/sync_project_roadmap.py:44-55 | At most three lines, and none exactly when Iteration, Priority and Labels are all blank. |
| SyncRoadmap.MetaLinesInOrder | scripts/sync_project_roadmap.py:44-55 | The lines are `- <key>: <value>` for exactly the non-blank columns among Iteration, Priority and Labels, in that order. |
| SyncRoadmap.BuildBody | scripts/sync_project_roadmap.py:44-58 | Without metadata, the trimmed body. Otherwise the body, then "---" and the heading. |
| SyncRoadmap.BodyLines | scripts/sync_project_roadmap.py:44-58 | The body's lines are the body, "", "---", the heading, then the metadata lines in order. |
| SyncRoadmap.FindField | scripts/sync_project_roadmap.py:61-65 | The first field named exactly so, or none exactly when no field has the name. |
| SyncRoadmap.FirstAnswer | scripts/sync_project_roadmap.py:73-77 | The result is the id of the first option that answers, exact or normalised, even when that id is absent. With no answering option, there is none. |
| SyncRoadmap.OptionIdFor | scripts/sync_project_roadmap.py:68-77 | No options give none. Otherwise, the id of the first option matching exactly or after normalisation. |
| SyncRoadmap.AnswersByNormalForm | scripts/sync_project_roadmap.py:75 | Matching is equality after normalisation. |
| SyncRoadmap.OptionLookupIgnoresFormatting | scripts/sync_project_roadmap.py:68-77 | Wanted values with the same normal form find the same option. |
| SyncRoadmap.FirstAnswerFound | scripts/sync_project_roadmap.py:73-76 | If an answering option exists and all ids are present, an id is found. |
| SyncRoadmap.DryRunField | scripts/sync_project_roadmap.py:96 | The synthetic field has the given name and exactly the given options, each its own id. |
| SyncRoadmap.DryRunFieldAnswers | scripts/sync_project_roadmap.py:94-96 | Every given option is found in the synthetic field. |
| SyncRoadmap.EnsureField | scripts/sync_project_roadmap.py:80-113 | An existing field is returned unchanged. Without creation, none. In a dry run, the synthetic field. Otherwise a create request and the refreshed lookup. |
| SyncRoadmap.ByTitle | scripts/sync_project_roadmap.py:205 | Indexes exactly the non-empty titles, each to an item with that title. |
| SyncRoadmap.ByTitleLastWins | scripts/sync_project_roadmap.py:205 | With repeated titles, the last item wins. |
| SyncRoadmap.Select | scripts/sync_project_roadmap.py:116-143 | No edit exactly in a dry run, or when the option id is missing or empty. Otherwise, exactly one edit setting that option id on the item's field. |
| SyncRoadmap.StatusValue | scripts/sync_project_roadmap.py:215 | The status column, or "Todo" when it is blank, so never empty. |
| SyncRoadmap.Titled | scripts/sync_project_roadmap.py:210-213 | At most one titled row per row. |
| SyncRoadmap.NewRows | scripts/sync_project_roadmap.py:219-243 | No more rows introduce a new title than there are titled rows. |
| SyncRoadmap.PlaceEffect | scripts/sync_project_roadmap.py:219-267 | A new title increments created, and an apply run indexes it. A known title increments updated. A dry run changes neither the index nor the edits. |
| SyncRoadmap.SyncRowEffect | scripts/sync_project_roadmap.py:210-273 | An untitled row changes nothing. A titled row increments exactly one of created and updated. |
| SyncRoadmap.SyncCounts | scripts/sync_project_roadmap.py:207-267 | created + updated grows by exactly the number of titled rows. |
| SyncRoadmap.DryRunChangesNothing | scripts/sync_project_roadmap.py:219-273 | A dry run issues no edit, keeps the index, and counts every titled row unknown to the board as created. |
| SyncRoadmap.ApplyCreatesEachTitleOnce | scripts/sync_project_roadmap.py:219-243 | An apply run indexes every title and creates one item per title new to the board. |
| SyncRoadmap.DryRunCountsRepeatedTitleTwice | scripts/sync_project_roadmap.py:219-243 | A repeated new title counts as two creations in a dry run, but as one creation plus one update when applied. |
| SyncRoadmap.PlaceItem | scripts/sync_project_roadmap.py:219-267 | Creates or updates the item as `Place` says. |
| SyncRoadmap.SyncItems | scripts/sync_project_roadmap.py:205-273 | The loop's counters and edits are those of the row-by-row sync. |
| SyncRoadmap.DryRunMode | scripts/sync_project_roadmap.py:159 | The run applies exactly with `--apply` and without `--dry-run`. |
| SyncRoadmap.RunSync | scripts/sync_project_roadmap.py:146-284 | No rows: nothing. A missing status field: the program's error. Otherwise the counters are those of the row-by-row sync, and created + updated is the number of titled rows. In apply mode, created is the number of distinct new titles. In a dry run, it is the number of titled rows whose title is not on the board. The edits are the field creations followed by the sync's edits, and a dry run issues no edit. |

## Left out

- HTTP transport, routing, the threaded server and `main`. So are Nominatim geocoding, the tile fetch after validation, file and URL reading, the Overpass request and every `gh` call, including `ensure_label`, `upsert_issue`, `fetch_project_metadata` and the edit call in `set_single_select`: these are I/O. The decoded request bodies, query strings, records, board fields and items are inputs to the model.
- The haversine formula, `0.5 ** x` and the text grammar of `float()` and `datetime.fromisoformat`/`normalize_iso`: these are floating point and date-time text, so they are parameters. Reals stand for floats, with no rounding error.
- ScoreEngine.Decay: only the age ≤ 0 case is stated, because `0.5 ** x` is a parameter. A zero half-life is excluded by its precondition, where Python would raise; every caller passes 7 or 10.
- ScoreEngine.NearestDistanceM: requires a non-empty point list, where Python's `min` would raise; every caller passes a constant non-empty table or a list it has just checked.
- HMAC device hashing, PBKDF2, `secrets` tokens, uuid4/uuid5 and SHA-256: these are cryptography, so they are parameters or given strings.
- SQLite itself: the ISO-8601 text of timestamps is modelled by integers, whose order matches the text order. The result order of an unordered SELECT is taken to be table order, and the tie order of `ORDER BY imported_at DESC` is not fixed.
- Concurrent requests: the model has one sequential caller.
- Admin user bootstrap and login, the admin overview and event create, update and delete: these are password crypto and SQL bookkeeping. Only the session table and `parse_admin_event` are modelled.
- `run_import_jobs.py`, `import_open_data_events.py` and `build_query`: a sleep loop, CSV file reading and a string template.
- CSV and JSON decoding of a source, and the reading of `field_map`, `default_values` and `event_type_map` from its config: these are modelled as given values. The `fetch` parameter of `ImportFromConfig` stands for the part of `import_from_source` before its write: reading and decoding the location and the record loop. Its note string is given with the rows.
- OpenDataImport.NameOf, OpenDataImport.ImportedSourceKept: a configured name is taken as text, the corrected reading in "## Findings". As written, the program keeps a non-string `source_name` or `id` raw. None of the following is modelled: a `true` id stored as "1"; a list or object name, whose insertion into `all_source_names` (backend/open_data_connector.py:274) raises TypeError and ends the run after the earlier sources were imported; the raw value in the summaries' `source_name`.
- OpenDataImport.ImportOneMeaning, OpenDataImport.ImportFromSource: the error of a unique-key refusal is SQLite's fixed message for the event table's primary key. No other constraint failure is modelled, because the stored rows meet the table's other constraints (valid type, non-null columns).
- OpenDataImport.SourceSetup: a non-string location or format raises `AttributeError` in the program, and only the error kind is modelled, not its message. The read between the two checks is I/O.
- Python's `str.isalnum` and `str.lower` are modelled on ASCII letters and digits. `str.strip` removes the characters `str.isspace` accepts. `int()` is modelled without underscores or non-ASCII digits.
- Floats that are NaN or infinite are not modelled.
- `element_coords` is modelled for object elements and object centers. Neither a truthy non-object center nor a non-object element is modelled, and unhashable tag values are left out.
- The roadmap report's Markdown layout beyond the table lines, its German texts and `fetch_project_metadata`'s JSON parsing are left out. `date.fromisoformat` is modelled for the YYYY-MM-DD form only, and the `timedelta` overflow for huge `upcoming_days` is not modelled.
- SyncRoadmap.BodyLines: states the line structure only for cells without line breaks. A multi-line CSV cell puts more lines into the body.
- The later same-title lookup of `by_title` after an item is created in apply mode is modelled with an item whose board fields are empty, as the program writes it.

## Findings

| source | as written | input that shows it | evidently intended | confidence | as-written member | corrected member |
|---|---|---|---|---|---|---|
| scripts/roadmap_reminder_report.py:128 | `meta.get("priority", "-")` yields None when the board item exists but its priority field is empty, and the `all_rows` sort key (line 144) then compares None with a string | two undated roadmap issues, #1 on the board with no priority and #2 not on the board: their keys tie on the first two components and the third compares None with "-", raising TypeError | an empty priority shows as "-", like a missing one, and the report sorts | medium, not executed | RoadmapReport.AsWrittenPriority, RoadmapReport.AsWrittenKeyLess, RoadmapReport.MissingPriorityBreaksSort | RoadmapReport.PriorityText, RoadmapReport.AllRowsOrder |
| backend/open_data_connector.py:273-274 | `source_name` is kept as the raw JSON value. The events are stored under its text (the `source` column is TEXT), but `all_source_names` holds the raw value, and `prune_sources_not_in_config` (lines 231-237) compares stored texts with it | `{"sources": [{"id": 7, "enabled": true, "url": …, "format": "csv"}]}` with `prune_legacy`: the events are stored as "7", and {"7"} − {7} prunes them, marking the source "pruned_not_in_config" | a configured source keeps the events its run has just imported, whatever the JSON type of its name | medium, not executed | OpenDataImport.AsWrittenNameOf, OpenDataImport.StoredName, OpenDataImport.AsWrittenPruneSet, OpenDataImport.NumericIdPrunedByOwnRun | OpenDataImport.NameOf, OpenDataImport.ImportedSourceKept |
