/**
 * `compute_score_payload` and `handle_score`: the factors of a spot at a given
 * night (area, nearby police and hospital, weekday or weekend, morning events,
 * community signals) are summed onto 100 and clamped to a score; the four
 * factors of largest magnitude become the payload's reasons.
 */
module ScoreComposer {
  import opened Wrappers
  import opened Text
  import opened Json
  import opened Calendar
  import opened ScoreEngine
  import opened Db
  import opened Sorting
  import opened Factors
  import opened SpotResolver
  import opened EventFactors
  import opened Community
  import opened SourceHealth

  const Region := "DE-NW (Pilot: Kreis Mettmann)"
  const Attribution := "Kartendaten: OpenStreetMap-Mitwirkende (ODbL)"

  /** How many factors the payload reports. */
  const ReasonCount := 4

  // ---------------------------------------------------------------- factors

  const PoliceFactor := ScoredFactor("dist_police", "Polizei in <200m", -15.0, "osm")
  const HospitalFactor := ScoredFactor("dist_hospital", "Krankenhaus in <200m", -10.0, "osm")
  const WeekendFactor := ScoredFactor("time_weekend", "Wochenende/Feiertag", -10.0, "time")
  const WeekdayFactor := ScoredFactor("time_weekday", "Werktagnacht", 5.0, "time")

  function AreaFactor(areaType: string): ScoredFactor {
    var f := AreaModifier(areaType);
    ScoredFactor(f.key, f.name, f.points, "osm")
  }

  /** The factors the spot row and the night decide, in payload order. */
  function SpotFactors(spot: SpotRow, nightStart: int): seq<ScoredFactor> {
    [AreaFactor(spot.areaType)]
      + (if spot.policeM < 200 then [PoliceFactor] else [])
      + (if spot.hospitalM < 200 then [HospitalFactor] else [])
      + [if WeekendOrHoliday(nightStart) then WeekendFactor else WeekdayFactor]
  }

  /** The points the spot row and the night contribute. */
  function SpotPoints(spot: SpotRow, nightStart: int): real {
    AreaModifier(spot.areaType).points
      + (if spot.policeM < 200 then -15.0 else 0.0)
      + (if spot.hospitalM < 200 then -10.0 else 0.0)
      + (if WeekendOrHoliday(nightStart) then -10.0 else 5.0)
  }

  lemma SpotFactorsSum(spot: SpotRow, nightStart: int)
    ensures SumPoints(SpotFactors(spot, nightStart)) == SpotPoints(spot, nightStart)
  {
    var area := [AreaFactor(spot.areaType)];
    var police: seq<ScoredFactor> := if spot.policeM < 200 then [PoliceFactor] else [];
    var hospital: seq<ScoredFactor> := if spot.hospitalM < 200 then [HospitalFactor] else [];
    var time := [if WeekendOrHoliday(nightStart) then WeekendFactor else WeekdayFactor];
    assert SumPoints(area) == AreaModifier(spot.areaType).points by {
      assert area[..0] == [];
    }
    assert SumPoints(police) == if spot.policeM < 200 then -15.0 else 0.0 by {
      if police != [] { assert police[..0] == []; }
    }
    assert SumPoints(hospital) == if spot.hospitalM < 200 then -10.0 else 0.0 by {
      if hospital != [] { assert hospital[..0] == []; }
    }
    assert SumPoints(time) == if WeekendOrHoliday(nightStart) then -10.0 else 5.0 by {
      assert time[..0] == [];
    }
    SumPointsAppend(area, police);
    SumPointsAppend(area + police, hospital);
    SumPointsAppend(area + police + hospital, time);
  }

  // ---------------------------------------------------------------- reasons

  /** Larger magnitude first (`sorted(key=abs(points), reverse=True)`). */
  function ByMagnitude(): (ScoredFactor, ScoredFactor) -> bool {
    (a: ScoredFactor, b: ScoredFactor) => Abs(a.points) >= Abs(b.points)
  }

  lemma ByMagnitudeOrder()
    ensures Total(ByMagnitude()) && Transitive(ByMagnitude())
  {
  }

  /** The factors the payload reports: the first four after the sort. */
  function TopFactors(fs: seq<ScoredFactor>): (top: seq<ScoredFactor>)
    ensures |top| == if |fs| < ReasonCount then |fs| else ReasonCount
  {
    var sorted := SortBy(fs, ByMagnitude());
    sorted[..if |fs| < ReasonCount then |fs| else ReasonCount]
  }

  lemma {:induction false} SameKeyPrefix(s: seq<ScoredFactor>, k: int, x: ScoredFactor)
    requires 0 <= k <= |s|
    ensures SameKey(s[..k], x, ByMagnitude()) <= SameKey(s, x, ByMagnitude())
  {
    if k > 0 {
      SameKeyPrefix(s[1..], k - 1, x);
      assert s[..k][1..] == s[1..][..k - 1];
    }
  }

  /** The reported factors are factors of the input, in descending magnitude;
      no factor left out is larger than a reported one; factors of equal
      magnitude are reported in input order, earliest first. */
  lemma TopFactorsMeaning(fs: seq<ScoredFactor>)
    ensures var top := TopFactors(fs);
            && multiset(top) <= multiset(fs)
            && SortedBy(top, ByMagnitude())
            && (forall f, t :: f in multiset(fs) - multiset(top) && t in top ==> Abs(f.points) <= Abs(t.points))
            && (forall x :: SameKey(top, x, ByMagnitude()) <= SameKey(fs, x, ByMagnitude()))
  {
    var le := ByMagnitude();
    var sorted := SortBy(fs, le);
    var k := if |fs| < ReasonCount then |fs| else ReasonCount;
    assert multiset(TopFactors(fs)) <= multiset(fs) by {
      assert sorted == sorted[..k] + sorted[k..];
    }
    ByMagnitudeOrder();
    SortBySorted(fs, le);
    PrefixDominates(sorted, k);
    forall x ensures SameKey(TopFactors(fs), x, le) <= SameKey(fs, x, le) {
      SameKeyPrefix(sorted, k, x);
      SortByStable(fs, x, le);
    }
  }

  /** In a sequence sorted by magnitude, a prefix is sorted and nothing
      after it is larger than anything in it. */
  lemma PrefixDominates(sorted: seq<ScoredFactor>, k: nat)
    requires SortedBy(sorted, ByMagnitude()) && k <= |sorted|
    ensures SortedBy(sorted[..k], ByMagnitude())
    ensures forall f, t :: f in multiset(sorted) - multiset(sorted[..k]) && t in sorted[..k] ==>
              Abs(f.points) <= Abs(t.points)
  {
    var top, rest := sorted[..k], sorted[k..];
    assert sorted == top + rest;
    assert multiset(sorted) == multiset(top) + multiset(rest);
    forall f, t | f in multiset(sorted) - multiset(top) && t in top ensures Abs(f.points) <= Abs(t.points) {
      assert f in rest;
      var j :| 0 <= j < |rest| && rest[j] == f;
      var i :| 0 <= i < |top| && top[i] == t;
      assert sorted[i] == t && sorted[k + j] == f;
    }
  }

  /** `f"{x:+.0f}"`: '-' for a negative value, '+' otherwise, then the
      rounded magnitude. */
  function SignedInt(x: real): string {
    var n: nat := RoundHalfEven(Abs(x));
    (if x < 0.0 then "-" else "+") + NatToString(n)
  }

  /** A sign followed by digits reads back as the signed number. */
  lemma ParseSigned(negative: bool, n: nat)
    ensures ParseInt((if negative then "-" else "+") + NatToString(n)) == Some(if negative then 0 - n else n)
  {
    var sign := if negative then "-" else "+";
    var digits := NatToString(n);
    var t := sign + digits;
    assert t[0] == sign[0] && t[|t| - 1] == digits[|digits| - 1];
    StripFixed(t);
    assert Strip(t) == t;
    assert t[1..] == digits;
    DigitsValueOfNat(n);
  }

  /** The signed text reads back as the value rounded half to even. */
  lemma SignedIntReadsBack(x: real)
    ensures ParseInt(SignedInt(x)) == Some(RoundHalfEven(x))
  {
    var n: nat := RoundHalfEven(Abs(x));
    var s := (if x < 0.0 then "-" else "+") + NatToString(n);
    assert SignedInt(x) == s;
    ParseSigned(x < 0.0, n);
    assert ParseInt(s) == Some(if x < 0.0 then 0 - n else n);
    SignedRound(x);
  }

  /** The signed text starts with '-' exactly for a negative value. */
  lemma SignedIntSign(x: real)
    ensures |SignedInt(x)| >= 2 && (SignedInt(x)[0] == '-' <==> x < 0.0)
  {
  }

  /** The magnitude rounded, with the sign of the value, is the value rounded. */
  lemma SignedRound(x: real)
    ensures var n: nat := RoundHalfEven(Abs(x));
            (if x < 0.0 then 0 - n else n) == RoundHalfEven(x)
  {
    RoundHalfEvenNegate(x);
  }

  /** `f"{label} ({points:+.0f})"`. */
  function ReasonText(f: ScoredFactor): string {
    f.name + " (" + SignedInt(f.points) + ")"
  }

  /** The reason is the label, then in parentheses a signed integer that
      reads back as the rounded points. */
  lemma ReasonTextMeaning(f: ScoredFactor)
    ensures var s := ReasonText(f);
            var k := |f.name| + 2;
            && |s| >= k + 3 && s[..k] == f.name + " (" && s[|s| - 1] == ')'
            && (s[k] == '-' <==> f.points < 0.0)
            && ParseInt(s[k..|s| - 1]) == Some(RoundHalfEven(f.points))
  {
    var middle := SignedInt(f.points);
    SignedIntReadsBack(f.points);
    SignedIntSign(f.points);
    var s := ReasonText(f);
    var k := |f.name| + 2;
    assert s == (f.name + " (") + middle + ")";
    assert s[k..|s| - 1] == middle;
    assert s[k] == middle[0];
  }

  function Reasons(top: seq<ScoredFactor>): (rs: seq<string>)
    ensures |rs| == |top| && forall i :: 0 <= i < |top| ==> rs[i] == ReasonText(top[i])
  {
    seq(|top|, i requires 0 <= i < |top| => ReasonText(top[i]))
  }

  // ---------------------------------------------------------------- payload

  datatype Payload = Payload(
    spotId: string, score: int, ampel: string, reasons: seq<string>, factors: seq<ScoredFactor>,
    night: NightWindow, dataUpdatedAt: int, region: string, attribution: string,
    sources: seq<SourceMeta>, health: Health, usedFallbackPois: bool)

  /** Every factor of the spot at instant `at`, in the order they are collected. */
  function AllFactors(spot: SpotRow, w: NightWindow, at: int, p: Point, events: seq<EventRow>, signals: seq<SignalRow>,
                      dist: Distance, halving: real -> real): seq<ScoredFactor>
  {
    SpotFactors(spot, w.start)
      + FactorsOf(Kept(MorningEvents(events, w.end), p, dist))
      + CommunityFactors(RecentSignals(signals, spot.id, at), at, halving)
  }

  /** The payload for a resolved spot, its night window, all its factors,
      the source listing, the health summary and the clock reading `now`. */
  function PayloadOf(spot: ResolvedSpot, w: NightWindow, all: seq<ScoredFactor>,
                     sources: seq<SourceMeta>, health: Health, now: int): (pl: Payload)
    ensures 0 <= pl.score <= 100 && pl.ampel == Ampel(pl.score)
    ensures |pl.factors| <= ReasonCount && |pl.reasons| == |pl.factors|
  {
    var score := ScoreOf(all);
    var top := TopFactors(all);
    Payload(spot.row.id, score, Ampel(score), Reasons(top), top, w, now,
            Region, Attribution, sources, health, spot.usedFallbackPois)
  }

  /** The points of all factors: those of the spot and the night, the
      events' and the community's. */
  lemma AllFactorsSum(spot: SpotRow, w: NightWindow, at: int, p: Point, events: seq<EventRow>, signals: seq<SignalRow>,
                      dist: Distance, halving: real -> real)
    ensures SumPoints(AllFactors(spot, w, at, p, events, signals, dist, halving))
            == SpotPoints(spot, w.start)
               + SumPoints(FactorsOf(Kept(MorningEvents(events, w.end), p, dist)))
               + SumPoints(CommunityFactors(RecentSignals(signals, spot.id, at), at, halving))
  {
    var a := SpotFactors(spot, w.start);
    var b := FactorsOf(Kept(MorningEvents(events, w.end), p, dist));
    var c := CommunityFactors(RecentSignals(signals, spot.id, at), at, halving);
    assert AllFactors(spot, w, at, p, events, signals, dist, halving) == a + b + c;
    SpotFactorsSum(spot, w.start);
    SumPointsAppend(a, b);
    SumPointsAppend(a + b, c);
  }

  /** `clamp_score(100.0 + sum(points))`. */
  function ScoreOf(all: seq<ScoredFactor>): (score: int)
    ensures 0 <= score <= 100
  {
    ClampScore(100.0 + SumPoints(all))
  }

  /** The score is 100 plus the area modifier, -15 for police and -10 for a
      hospital within 200 m, -10 on a weekend or holiday night and +5
      otherwise, plus every event and community factor, clamped to 0..100. */
  lemma ScoreBreakdown(spot: SpotRow, w: NightWindow, at: int, p: Point, events: seq<EventRow>,
                       signals: seq<SignalRow>, dist: Distance, halving: real -> real)
    ensures ScoreOf(AllFactors(spot, w, at, p, events, signals, dist, halving))
            == ClampScore(100.0 + SpotPoints(spot, w.start)
                          + SumPoints(FactorsOf(Kept(MorningEvents(events, w.end), p, dist)))
                          + SumPoints(CommunityFactors(RecentSignals(signals, spot.id, at), at, halving)))
  {
    var all := AllFactors(spot, w, at, p, events, signals, dist, halving);
    var spotPoints := SpotPoints(spot, w.start);
    var eventPoints := SumPoints(FactorsOf(Kept(MorningEvents(events, w.end), p, dist)));
    var communityPoints := SumPoints(CommunityFactors(RecentSignals(signals, spot.id, at), at, halving));
    AllFactorsSum(spot, w, at, p, events, signals, dist, halving);
    SameSumSameScore(all, 100.0 + spotPoints + eventPoints + communityPoints);
  }

  lemma SameSumSameScore(all: seq<ScoredFactor>, total: real)
    requires 100.0 + SumPoints(all) == total
    ensures ScoreOf(all) == ClampScore(total)
  {
  }

  /** The payload `compute_score_payload` composes for a resolved spot from
      the event, signal and source-state tables: every factor of the night,
      and the sources' metadata, newest first, one per stored source. */
  ghost predicate ComposedFrom(payload: Payload, spot: ResolvedSpot, p: Point, at: int, now: int, nowHealth: int,
                         events: seq<EventRow>, signals: seq<SignalRow>, state: map<string, SourceState>,
                         dist: Distance, halving: real -> real)
  {
    && payload == PayloadOf(spot, NightWindowFor(at),
                            AllFactors(spot.row, NightWindowFor(at), at, p, events, signals, dist, halving),
                            payload.sources, HealthOf(StampsOf(payload.sources), nowHealth), now)
    && SortedBy(payload.sources, NewerFirst()) && DistinctNames(payload.sources)
    && forall r :: r in payload.sources <==> r.name in state && r == MetaOf(state, r.name)
  }

  /** `compute_score_payload`: resolves the spot (which may insert it), reads
      the source state, and composes the payload. `now` and `nowHealth` are the
      two clock readings it takes. */
  method ComputeScorePayload(db: Database, p: Point, at: int, now: int, nowHealth: int,
                             dist: Distance, uuid5: string -> string, halving: real -> real)
    returns (payload: Payload)
    requires db.Valid()
    modifies db
    ensures db.Valid()
    ensures var (spot, spots) := Resolve(old(db.spots), old(db.zones), old(db.roads), old(db.pois), p, now, dist, uuid5);
            && db.spots == spots
            && payload == PayloadOf(spot, NightWindowFor(at),
                                    AllFactors(spot.row, NightWindowFor(at), at, p, old(db.events), old(db.signals), dist, halving),
                                    payload.sources, HealthOf(StampsOf(payload.sources), nowHealth), now)
    ensures SortedBy(payload.sources, NewerFirst()) && DistinctNames(payload.sources)
    ensures forall r :: r in payload.sources <==> r.name in old(db.sourceState) && r == MetaOf(old(db.sourceState), r.name)
    ensures db.signals == old(db.signals) && db.events == old(db.events) && db.sourceState == old(db.sourceState)
    ensures db.pois == old(db.pois) && db.zones == old(db.zones) && db.roads == old(db.roads)
  {
    var spot := EnsureSpot(db, p, now, dist, uuid5);
    var sources := DataSourceMeta(db.sourceState);
    var health := SourceHealthOf(StampsOf(sources), nowHealth);
    var w := NightWindowFor(at);
    var factors := SpotFactors(spot.row, w.start);
    var eventFactors := CollectLocalEventFactors(db.events, p, w.end, dist);
    var communityFactors := CollectCommunityFactors(db.signals, spot.row.id, at, halving);
    factors := factors + eventFactors + communityFactors;
    var score := ScoreOf(factors);
    var top := TopFactors(factors);
    payload := Payload(spot.row.id, score, Ampel(score), Reasons(top), top, w, now,
                       Region, Attribution, sources, health, spot.usedFallbackPois);
  }

  // ------------------------------------------------------------------ query

  /** The pilot region's bounding box that `handle_score` accepts. */
  predicate InScoreBounds(p: Point) {
    47.0 <= p.lat <= 55.5 && 5.0 <= p.lon <= 16.0
  }

  /** `query.get(key, [""])[0]`; `None` for a key present with no value. */
  function FirstValue(query: map<string, seq<string>>, key: string): (r: Option<string>)
    ensures key !in query ==> r == Some("")
  {
    if key !in query then Some("")
    else if query[key] == [] then None
    else Some(query[key][0])
  }

  /** The point and instant of a score query, or the error `handle_score`
      reports. A missing `at` means the clock reading `now`. */
  function ParseScoreQuery(query: map<string, seq<string>>, conv: Conversions, now: int): (r: Result<(Point, int)>)
    ensures r.Ok? ==> InScoreBounds(r.value.0)
    ensures r.Err? ==> r.error == "invalid_query" || r.error == "lat_lon_out_of_bounds"
    ensures "at" !in query && r.Ok? ==> r.value.1 == now
    ensures "lat" !in query || "lon" !in query ==> r == Err("invalid_query") || conv.floatOf("").Some?
  {
    var lat := FirstValue(query, "lat");
    var lon := FirstValue(query, "lon");
    var at := FirstValue(query, "at");
    if lat.None? then Err("invalid_query")
    else
      var latV := conv.floatOf(lat.value);
      if latV.None? || lon.None? then Err("invalid_query")
      else
        var lonV := conv.floatOf(lon.value);
        if lonV.None? || at.None? then Err("invalid_query")
        else
          var atV := ParseIso8601(JStr(at.value), conv, now);
          if atV.None? then Err("invalid_query")
          else if !InScoreBounds(Point(latV.value, lonV.value)) then Err("lat_lon_out_of_bounds")
          else Ok((Point(latV.value, lonV.value), atV.value))
  }

  datatype ScoreResponse = ScoreOk(payload: Payload) | ScoreError(error: string)

  /** `handle_score`: a rejected query leaves the database untouched. */
  method HandleScore(db: Database, query: map<string, seq<string>>, conv: Conversions, nowQuery: int,
                     now: int, nowHealth: int, dist: Distance, uuid5: string -> string, halving: real -> real)
    returns (resp: ScoreResponse)
    requires db.Valid()
    modifies db
    ensures db.Valid()
    ensures var q := ParseScoreQuery(query, conv, nowQuery);
            && (q.Err? ==> resp == ScoreError(q.error) && db.spots == old(db.spots))
            && (q.Ok? ==>
                  var (spot, spots) := Resolve(old(db.spots), old(db.zones), old(db.roads), old(db.pois),
                                               q.value.0, now, dist, uuid5);
                  && resp.ScoreOk? && db.spots == spots
                  && ComposedFrom(resp.payload, spot, q.value.0, q.value.1, now, nowHealth,
                                  old(db.events), old(db.signals), old(db.sourceState), dist, halving))
    ensures db.signals == old(db.signals) && db.events == old(db.events) && db.sourceState == old(db.sourceState)
    ensures db.pois == old(db.pois) && db.zones == old(db.zones) && db.roads == old(db.roads)
  {
    var q := ParseScoreQuery(query, conv, nowQuery);
    if q.Err? {
      return ScoreError(q.error);
    }
    var payload := ComputeScorePayload(db, q.value.0, q.value.1, now, nowHealth, dist, uuid5, halving);
    resp := ScoreOk(payload);
  }
}
