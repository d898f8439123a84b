/**
 * The scoring rules of StaySense: fallback distances to fixed point tables,
 * the area and road classification derived from them, the area modifier, the
 * night window a score is computed for, the weekend/holiday flag, the decay of
 * community signals, clamping and the traffic-light category.
 *
 * The great-circle distance is a parameter (`Distance`): only its
 * non-negativity is used. So is `0.5 ** x` in the decay rule and the UUIDv5
 * that turns a grid key into a spot id.
 */
module ScoreEngine {
  import opened Wrappers
  import opened Text
  import opened Calendar

  datatype Point = Point(lat: real, lon: real)

  type Meters = r: real | r >= 0.0

  /** The haversine distance in metres between two points. */
  type Distance = (Point, Point) -> Meters

  /** A contribution to a score. */
  datatype Factor = Factor(key: string, name: string, points: real)

  // ------------------------------------------------------ fixed point tables

  const PolicePoints: seq<Point> :=
    [Point(51.2507, 6.9751), Point(51.2965, 6.8494), Point(51.3398, 7.0438)]
  const FirePoints: seq<Point> :=
    [Point(51.2518, 6.9800), Point(51.2937, 6.8568), Point(51.3314, 7.0540)]
  const HospitalPoints: seq<Point> :=
    [Point(51.2556, 6.9723), Point(51.2891, 6.8457), Point(51.3321, 7.0403)]
  const IndustrialZones: seq<Point> := [Point(51.2348, 6.9902), Point(51.3022, 6.8340)]
  const CommercialZones: seq<Point> := [Point(51.2512, 6.9878), Point(51.2934, 6.8541)]
  const NatureZones: seq<Point> := [Point(51.2715, 6.9440), Point(51.3188, 7.0274)]
  const ParkingZones: seq<Point> := [Point(51.2499, 6.9831)]
  const MainRoadPoints: seq<Point> := [Point(51.2524, 6.9921), Point(51.2951, 6.8615)]

  /** The public holidays of North Rhine-Westphalia in 2026. */
  const NrwHolidays2026: seq<Date> := [
    Date(2026, 1, 1), Date(2026, 4, 3), Date(2026, 4, 6), Date(2026, 5, 1),
    Date(2026, 5, 14), Date(2026, 5, 25), Date(2026, 6, 4), Date(2026, 10, 3),
    Date(2026, 11, 1), Date(2026, 12, 25), Date(2026, 12, 26)]

  /** The same holidays as day numbers since 1970-01-01 (see `HolidayDaysAreDates`). */
  const HolidayDays: seq<int> :=
    [20454, 20546, 20549, 20574, 20587, 20598, 20608, 20729, 20758, 20812, 20813]

  lemma HolidayDaysAreDates()
    ensures |HolidayDays| == |NrwHolidays2026|
    ensures forall i :: 0 <= i < |HolidayDays| ==> HolidayDays[i] == EpochDay(NrwHolidays2026[i])
  {
    assert EpochDay(Date(2026, 1, 1)) == 20454;
    forall i | 1 <= i < |HolidayDays| ensures HolidayDays[i] == EpochDay(NrwHolidays2026[i]) {
      EpochDayIn2026(NrwHolidays2026[i]);
    }
  }

  /** Day numbers of 2026 from March on: 2026-03-01 is day 20513, and each
      month starts where Python's proleptic calendar puts it. */
  lemma EpochDayIn2026(d: Date)
    requires d.year == 2026 && 3 <= d.month <= 12
    ensures EpochDay(d) == 20513 + (153 * (d.month - 3) + 2) / 5 + d.day - 1
  {
    assert 2026 / 400 == 5;
  }

  // --------------------------------------------------------------- distances

  /** `d` is the distance to the nearest of `pts`, truncated to whole metres:
      no point is nearer than `d`, and some point is less than a metre further. */
  ghost predicate FloorOfNearest(d: int, p: Point, pts: seq<Point>, dist: Distance) {
    && (forall i :: 0 <= i < |pts| ==> d as real <= dist(p, pts[i]))
    && (exists i :: 0 <= i < |pts| && dist(p, pts[i]) < d as real + 1.0)
  }

  /** `nearest_distance_m`: `int()` of the smallest distance to `pts`. */
  function NearestDistanceM(p: Point, pts: seq<Point>, dist: Distance): (d: nat)
    requires |pts| > 0
    ensures FloorOfNearest(d, p, pts, dist)
  {
    if |pts| == 1 then dist(p, pts[0]).Floor
    else
      var rest := NearestDistanceM(p, pts[1..], dist);
      var here := dist(p, pts[0]).Floor;
      assert forall i :: 1 <= i < |pts| ==> pts[i] == pts[1..][i - 1];
      if here < rest then here else rest
  }

  /** The index `min(..., key=...)` picks: the first of the smallest values. */
  function FirstMinIndex(ds: seq<int>): (k: nat)
    requires |ds| > 0
    ensures k < |ds|
    ensures forall j :: 0 <= j < |ds| ==> ds[k] <= ds[j]
    ensures forall j :: 0 <= j < k ==> ds[k] < ds[j]
  {
    if |ds| == 1 then 0
    else
      var k := FirstMinIndex(ds[..|ds| - 1]);
      if ds[|ds| - 1] < ds[k] then |ds| - 1 else k
  }

  const AreaCandidates: seq<string> := ["industrial", "commercial", "nature", "parking"]

  /** The fallback distance to each area category, in the order of `AreaCandidates`. */
  function AreaDistances(p: Point, dist: Distance): (ds: seq<int>)
    ensures |ds| == |AreaCandidates|
  {
    [NearestDistanceM(p, IndustrialZones, dist), NearestDistanceM(p, CommercialZones, dist),
     NearestDistanceM(p, NatureZones, dist), NearestDistanceM(p, ParkingZones, dist)]
  }

  /** The category whose fallback zone is nearest (the earlier one on a tie),
      when it is at most 400 m away; "residential" otherwise. */
  function ClassifyArea(p: Point, dist: Distance): (r: string)
    ensures var ds := AreaDistances(p, dist);
            (r == "residential" <==> forall j :: 0 <= j < |ds| ==> ds[j] > 400)
            && (r != "residential" ==>
                  exists k :: 0 <= k < |ds| && AreaCandidates[k] == r && ds[k] <= 400
                    && (forall j :: 0 <= j < |ds| ==> ds[k] <= ds[j])
                    && (forall j :: 0 <= j < k ==> ds[k] < ds[j]))
  {
    var ds := AreaDistances(p, dist);
    var k := FirstMinIndex(ds);
    if ds[k] <= 400 then AreaCandidates[k] else "residential"
  }

  /** "primary" exactly when a main-road point is nearer than 250 m. */
  function ClassifyRoad(p: Point, dist: Distance): (r: string)
    ensures r == "primary" <==> exists i :: 0 <= i < |MainRoadPoints| && dist(p, MainRoadPoints[i]) < 250.0
    ensures r != "primary" ==> r == "residential"
  {
    if NearestDistanceM(p, MainRoadPoints, dist) < 250 then "primary" else "residential"
  }

  // ---------------------------------------------------------------- spot id

  function Abs(x: real): (r: real)
    ensures r >= 0.0 && (r == x || r == -x)
  {
    if x < 0.0 then -x else x
  }

  /** Python's `round(x)`: the nearest integer, the even one on a tie. */
  function RoundHalfEven(x: real): (r: int)
    ensures -0.5 <= x - r as real <= 0.5
    ensures (x - r as real == 0.5 || x - r as real == -0.5) ==> r % 2 == 0
  {
    var f := x.Floor;
    var frac := x - f as real;
    if frac < 0.5 then f
    else if frac > 0.5 then f + 1
    else if f % 2 == 0 then f else f + 1
  }

  /** Rounding to the nearest integer is symmetric about zero. */
  lemma RoundHalfEvenNegate(x: real)
    ensures RoundHalfEven(-x) == -RoundHalfEven(x)
  {
  }

  /** The 4-decimal grid cell of a coordinate (`round(x, 4)`, scaled by 10 000). */
  function Grid(x: real): int {
    RoundHalfEven(x * 10000.0)
  }

  /** `f"{x:.4f}"`: the sign of `x`, the integer part and exactly four decimals
      of `|x|` rounded to four decimals. */
  function Fixed4(x: real): (s: string)
    ensures |s| >= 6
  {
    var m: nat := RoundHalfEven(Abs(x) * 10000.0);
    (if x < 0.0 then "-" else "") + NatToString(m / 10000) + "." + Padded(m % 10000, 4)
  }

  /** The text a spot id is derived from. */
  function SpotKey(p: Point): string {
    "staysense:" + Fixed4(p.lat) + ":" + Fixed4(p.lon)
  }

  /** `spot_id_for`: a name-based UUID (given as `uuid5`) of the grid key. */
  function SpotIdFor(p: Point, uuid5: string -> string): string
  {
    uuid5(SpotKey(p))
  }

  /** Two points in the same 4-decimal cell, on the same side of zero in each
      coordinate, get the same spot id. */
  lemma SameCellSameSpot(p: Point, q: Point, uuid5: string -> string)
    requires Grid(p.lat) == Grid(q.lat) && (p.lat < 0.0 <==> q.lat < 0.0)
    requires Grid(p.lon) == Grid(q.lon) && (p.lon < 0.0 <==> q.lon < 0.0)
    ensures SpotIdFor(p, uuid5) == SpotIdFor(q, uuid5)
  {
    Fixed4OfGrid(p.lat, q.lat);
    Fixed4OfGrid(p.lon, q.lon);
  }

  lemma Fixed4OfGrid(x: real, y: real)
    requires Grid(x) == Grid(y) && (x < 0.0 <==> y < 0.0)
    ensures Fixed4(x) == Fixed4(y)
  {
    AbsGrid(x);
    AbsGrid(y);
  }

  /** The rounded magnitude the text shows is the magnitude of the grid cell. */
  lemma AbsGrid(x: real)
    ensures RoundHalfEven(Abs(x) * 10000.0) == (if x < 0.0 then -Grid(x) else Grid(x))
  {
    if x < 0.0 {
      RoundHalfEvenNegate(x * 10000.0);
      assert Abs(x) * 10000.0 == -(x * 10000.0);
    }
  }

  /** Conversely, the text determines the grid cell: different cells get
      different keys, so spot ids can only collide through the UUID. */
  lemma Fixed4DeterminesGrid(x: real, y: real)
    requires Fixed4(x) == Fixed4(y)
    ensures Grid(x) == Grid(y)
  {
    AbsGrid(x);
    AbsGrid(y);
    var mx: nat := RoundHalfEven(Abs(x) * 10000.0);
    var my: nat := RoundHalfEven(Abs(y) * 10000.0);
    SignedTextParts(x < 0.0, NatToString(mx / 10000), Padded(mx % 10000, 4),
                    y < 0.0, NatToString(my / 10000), Padded(my % 10000, 4));
    DigitsValueOfNat(mx / 10000);
    DigitsValueOfNat(my / 10000);
    PaddedExact(mx % 10000, 4);
    PaddedExact(my % 10000, 4);
  }

  /** A sign, a run of digits, a point and four digits can be read back
      from their concatenation. */
  lemma SignedTextParts(nx: bool, ax: string, tx: string, ny: bool, ay: string, ty: string)
    requires |ax| >= 1 && AllDigits(ax) && |ay| >= 1 && AllDigits(ay) && |tx| == 4 && |ty| == 4
    requires (if nx then "-" else "") + ax + "." + tx == (if ny then "-" else "") + ay + "." + ty
    ensures nx == ny && ax == ay && tx == ty
  {
    var sx, sy := (if nx then "-" else ""), (if ny then "-" else "");
    var lx, ly := sx + ax + "." + tx, sy + ay + "." + ty;
    assert lx[0] == (if nx then '-' else ax[0]);
    assert ly[0] == (if ny then '-' else ay[0]);
    assert nx == ny;
    var rx, ry := ax + "." + tx, ay + "." + ty;
    assert lx[|sx|..] == rx && ly[|sy|..] == ry;
    assert |ax| == |ay|;
    assert ax == rx[..|ax|] && tx == rx[|ax| + 1..];
    assert ay == ry[..|ay|] && ty == ry[|ay| + 1..];
  }

  // ---------------------------------------------------------- area modifier

  /** `score_area_modifier`: the area factor of a spot's area type. */
  function AreaModifier(areaType: string): (f: Factor)
    ensures f.key == "area"
    ensures f.points > 0.0 <==> areaType in {"industrial", "commercial", "nature"}
    ensures f.points < 0.0 <==> areaType in {"residential", "parking"}
    ensures areaType !in {"residential", "industrial", "commercial", "parking", "nature"} ==>
              f == Factor("area", "Umgebung", 0.0)
  {
    match areaType
    case "residential" => Factor("area", "Wohngebiet", -10.0)
    case "industrial" => Factor("area", "Industriegebiet", 10.0)
    case "commercial" => Factor("area", "Gewerbegebiet", 6.0)
    case "parking" => Factor("area", "Parkplatzumfeld", -5.0)
    case "nature" => Factor("area", "Naturnah", 8.0)
    case _ => Factor("area", "Umgebung", 0.0)
  }

  // ------------------------------------------------------------ night window

  datatype NightWindow = NightWindow(start: int, end: int)

  /** The night a reference instant belongs to or precedes: from 22:00 to 06:00.
      Before 06:00 it is the night that began the previous evening; from 06:00
      on it is the night beginning that evening. */
  function NightWindowFor(reference: int): (w: NightWindow)
    ensures w.end == w.start + 8 * SecondsPerHour
    ensures HourOf(w.start) == 22 && w.start % SecondsPerHour == 0
    ensures DayOf(w.start) == if HourOf(reference) < 6 then DayOf(reference) - 1 else DayOf(reference)
    ensures HourOf(reference) >= 22 || HourOf(reference) < 6 ==> w.start <= reference < w.end
    ensures 6 <= HourOf(reference) < 22 ==> reference < w.start
  {
    var ref := reference - reference % 60;
    var start :=
      if HourOf(ref) >= 22 then DayOf(ref) * SecondsPerDay + 22 * SecondsPerHour
      else if HourOf(ref) < 6 then DayOf(ref - SecondsPerDay) * SecondsPerDay + 22 * SecondsPerHour
      else DayOf(ref) * SecondsPerDay + 22 * SecondsPerHour;
    NightWindowFacts(reference, ref, start);
    NightWindow(start, start + 8 * SecondsPerHour)
  }

  lemma NightWindowFacts(reference: int, ref: int, start: int)
    requires ref == reference - reference % 60
    requires start == (if HourOf(ref) < 6 then DayOf(ref - SecondsPerDay) else DayOf(ref)) * SecondsPerDay
                      + 22 * SecondsPerHour
    ensures DayOf(ref) == DayOf(reference) && HourOf(ref) == HourOf(reference)
    ensures HourOf(start) == 22 && start % SecondsPerHour == 0
    ensures DayOf(start) == if HourOf(reference) < 6 then DayOf(reference) - 1 else DayOf(reference)
  {
    TruncateToMinute(reference);
    DayBefore(ref);
    EveningOf(if HourOf(ref) < 6 then DayOf(ref) - 1 else DayOf(ref));
  }

  /** Dropping the seconds keeps the day and the hour. */
  lemma TruncateToMinute(t: int)
    ensures DayOf(t - t % 60) == DayOf(t) && HourOf(t - t % 60) == HourOf(t)
  {
    var d, s := t / SecondsPerDay, t % SecondsPerDay;
    var h, rest := s / SecondsPerHour, s % SecondsPerHour;
    var mins, secs := rest / 60, rest % 60;
    assert t == (d * 1440 + h * 60 + mins) * 60 + secs;
    ModUnique(t, 60, d * 1440 + h * 60 + mins, secs);
    assert t - t % 60 == d * SecondsPerDay + (h * SecondsPerHour + mins * 60);
    ModUnique(t - t % 60, SecondsPerDay, d, h * SecondsPerHour + mins * 60);
    ModUnique(h * SecondsPerHour + mins * 60, SecondsPerHour, h, mins * 60);
  }

  lemma DayBefore(t: int)
    ensures DayOf(t - SecondsPerDay) == DayOf(t) - 1
  {
    ModUnique(t - SecondsPerDay, SecondsPerDay, t / SecondsPerDay - 1, t % SecondsPerDay);
  }

  /** 22:00 on a given day. */
  lemma EveningOf(day: int)
    ensures var t := day * SecondsPerDay + 22 * SecondsPerHour;
            DayOf(t) == day && HourOf(t) == 22 && t % SecondsPerHour == 0
  {
    var t := day * SecondsPerDay + 22 * SecondsPerHour;
    ModUnique(t, SecondsPerDay, day, 22 * SecondsPerHour);
    ModUnique(t, SecondsPerHour, day * 24 + 22, 0);
  }

  /** 2026-02-15 23:30 UTC lies in the night from 22:00 that evening to 06:00. */
  lemma NightWindowExample()
    ensures var w := NightWindowFor(20499 * SecondsPerDay + 23 * SecondsPerHour + 30 * 60);
            HourOf(w.start) == 22 && HourOf(w.end) == 6 && DayOf(w.start) == 20499
  {
    var w := NightWindowFor(20499 * SecondsPerDay + 23 * SecondsPerHour + 30 * 60);
    assert w.end == 20500 * SecondsPerDay + 6 * SecondsPerHour;
  }

  // ------------------------------------------------------- weekend, holiday

  /** Whether the night starting at `nightStart` counts as a weekend or
      holiday night: Friday or Saturday evening, a holiday, or the eve of one. */
  function WeekendOrHoliday(nightStart: int): bool
  {
    var weekday := Weekday(DayOf(nightStart));
    if weekday == 4 || weekday == 5 then true
    else if DayOf(nightStart) in HolidayDays then true
    else DayOf(nightStart + SecondsPerDay) in HolidayDays
  }

  /** The flag in calendar terms: the start date is a Friday or Saturday, or
      the start date or the date after it is one of the listed holidays. */
  lemma WeekendOrHolidayMeaning(nightStart: int)
    ensures WeekendOrHoliday(nightStart) <==>
              var day := DayOf(nightStart);
              Weekday(day) in {4, 5}
              || (exists i :: 0 <= i < |NrwHolidays2026| && EpochDay(NrwHolidays2026[i]) in {day, day + 1})
  {
    var day := DayOf(nightStart);
    assert DayOf(nightStart + SecondsPerDay) == day + 1 by {
      InstantSplit(nightStart);
      ModUnique(nightStart + SecondsPerDay, SecondsPerDay, day + 1, nightStart % SecondsPerDay);
    }
    HolidayDaysAreDates();
    if day in HolidayDays || day + 1 in HolidayDays {
      var i :| 0 <= i < |HolidayDays| && HolidayDays[i] in {day, day + 1};
      assert EpochDay(NrwHolidays2026[i]) in {day, day + 1};
    }
  }

  /** Christmas Eve 2026 is a Thursday but the eve of a holiday; the evening of
      Wednesday 2026-12-23 is an ordinary night. */
  lemma WeekendOrHolidayExamples()
    ensures WeekendOrHoliday(20811 * SecondsPerDay + 22 * SecondsPerHour)
    ensures !WeekendOrHoliday(20810 * SecondsPerDay + 22 * SecondsPerHour)
  {
    assert DayOf(20811 * SecondsPerDay + 22 * SecondsPerHour) == 20811;
    assert DayOf(20812 * SecondsPerDay + 22 * SecondsPerHour) == 20812;
    assert DayOf(20810 * SecondsPerDay + 22 * SecondsPerHour) == 20810;
    assert HolidayDays[9] == 20812;
  }

  // ------------------------------------------------------------------ decay

  /** `decay(age, half_life)`: 1 for a non-positive age, otherwise
      `halving(age / half_life)`, where `halving(x)` is `0.5 ** x`. */
  function Decay(ageDays: real, halfLifeDays: real, halving: real -> real): (r: real)
    requires ageDays > 0.0 ==> halfLifeDays != 0.0
    ensures ageDays <= 0.0 ==> r == 1.0
  {
    if ageDays <= 0.0 then 1.0 else halving(ageDays / halfLifeDays)
  }

  // ------------------------------------------------------- clamp and ampel

  /** `clamp_score`: the value rounded to the nearest integer and clamped to 0..100. */
  function ClampScore(value: real): (r: int)
    ensures 0 <= r <= 100
    ensures value <= 0.0 ==> r == 0
    ensures value >= 100.0 ==> r == 100
    ensures 0.0 <= value <= 100.0 ==> -0.5 <= value - r as real <= 0.5
  {
    var n := RoundHalfEven(value);
    if n > 100 then 100 else if n < 0 then 0 else n
  }

  /** The traffic-light category of a score. */
  function Ampel(score: int): (r: string)
    ensures r == "green" <==> score >= 70
    ensures r == "yellow" <==> 45 <= score < 70
    ensures r == "red" <==> score < 45
  {
    if score >= 70 then "green"
    else if score >= 45 then "yellow"
    else "red"
  }

  lemma ScoreEngineExamples()
    ensures Ampel(70) == "green" && Ampel(45) == "yellow" && Ampel(10) == "red"
    ensures ClampScore(-20.0) == 0 && ClampScore(120.0) == 100
  {
  }
}
