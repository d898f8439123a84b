/**
 * `collect_community_factors`: the community signals of a spot from the last
 * 30 days are summed per signal type, each weighted by the type's base points
 * and decayed by its age, ignoring signals older than the type's window. Each
 * type whose total reaches half a point in magnitude becomes one factor, in
 * the fixed order knock, noise, calm, police.
 */
module Community {
  import opened Wrappers
  import opened Calendar
  import opened ScoreEngine
  import opened Db
  import opened Factors

  datatype Bucket = Bucket(base: real, halfLife: real, window: int, name: string)

  function BucketOf(signalType: string): (b: Option<Bucket>)
    ensures b.Some? <==> signalType in BucketOrder
  {
    match signalType
    case "knock" => Some(Bucket(-25.0, 10.0, 30, "Klopfen gemeldet"))
    case "noise" => Some(Bucket(-15.0, 7.0, 14, "Lärm gemeldet"))
    case "calm" => Some(Bucket(10.0, 7.0, 14, "Ruhig gemeldet"))
    case "police" => Some(Bucket(-18.0, 10.0, 30, "Polizei-Einsatz gemeldet"))
    case _ => None
  }

  /** The order of the per-type totals, and so of the factors. */
  const BucketOrder: seq<string> := ["knock", "noise", "calm", "police"]

  /** The query: the spot's signals stamped no earlier than 30 days before
      the scored instant, in table order. */
  function RecentSignals(signals: seq<SignalRow>, spotId: string, at: int): (rows: seq<SignalRow>)
    ensures forall r :: r in rows <==> r in signals && r.spotId == spotId && r.timestamp >= at - 30 * SecondsPerDay
  {
    if signals == [] then []
    else
      var rest := RecentSignals(signals[1..], spotId, at);
      assert forall r :: r in signals <==> r == signals[0] || r in signals[1..];
      var r := signals[0];
      (if r.spotId == spotId && r.timestamp >= at - 30 * SecondsPerDay then [r] else []) + rest
  }

  /** A signal's age in days, never negative. */
  function AgeDays(at: int, timestamp: int): (age: real)
    ensures age >= 0.0
    ensures timestamp >= at ==> age == 0.0
  {
    var a := (at - timestamp) as real / 86400.0;
    if a > 0.0 then a else 0.0
  }

  /** What one signal adds to the total of `signalType`. */
  function Contribution(r: SignalRow, signalType: string, at: int, halving: real -> real): real {
    if r.signalType != signalType then 0.0
    else
      match BucketOf(signalType)
      case None => 0.0
      case Some(b) =>
        var age := AgeDays(at, r.timestamp);
        if age > b.window as real then 0.0 else b.base * Decay(age, b.halfLife, halving)
  }

  /** The total of one signal type over the rows. */
  function TypeTotal(rows: seq<SignalRow>, signalType: string, at: int, halving: real -> real): real {
    if rows == [] then 0.0
    else TypeTotal(rows[..|rows| - 1], signalType, at, halving) + Contribution(rows[|rows| - 1], signalType, at, halving)
  }

  function FactorKey(signalType: string): string {
    "community_" + signalType
  }

  function FactorsFor(order: seq<string>, rows: seq<SignalRow>, at: int, halving: real -> real): seq<ScoredFactor>
    requires forall t :: t in order ==> BucketOf(t).Some?
  {
    if order == [] then []
    else
      var t := order[|order| - 1];
      var total := TypeTotal(rows, t, at, halving);
      FactorsFor(order[..|order| - 1], rows, at, halving)
        + (if Abs(total) < 0.5 then [] else [ScoredFactor(FactorKey(t), BucketOf(t).value.name, total, "community")])
  }

  lemma TypeTotalStep(rows: seq<SignalRow>, i: int, at: int, halving: real -> real)
    requires 0 <= i < |rows|
    ensures forall t :: TypeTotal(rows[..i + 1], t, at, halving)
                        == TypeTotal(rows[..i], t, at, halving) + Contribution(rows[i], t, at, halving)
  {
    assert rows[..i + 1][..i] == rows[..i];
  }

  /** A signal adds only to the total of its own type. */
  lemma OnlyOwnType(r: SignalRow, at: int, halving: real -> real)
    ensures forall t :: t != r.signalType ==> Contribution(r, t, at, halving) == 0.0
  {
  }

  /** The factors `collect_community_factors` returns for the queried rows. */
  function CommunityFactors(rows: seq<SignalRow>, at: int, halving: real -> real): seq<ScoredFactor> {
    FactorsFor(BucketOrder, rows, at, halving)
  }

  /** `byType` holds the total of each bucketed type over `rows`, and no other key. */
  ghost predicate Totals(byType: map<string, real>, rows: seq<SignalRow>, at: int, halving: real -> real) {
    && (forall t :: t in byType <==> t in BucketOrder)
    && (forall t :: t in BucketOrder ==> byType[t] == TypeTotal(rows, t, at, halving))
  }

  /** A row that adds nothing to its own type leaves every total as it was. */
  lemma SkipStep(byType: map<string, real>, rows: seq<SignalRow>, i: int, at: int, halving: real -> real)
    requires 0 <= i < |rows| && Totals(byType, rows[..i], at, halving)
    requires Contribution(rows[i], rows[i].signalType, at, halving) == 0.0
    ensures Totals(byType, rows[..i + 1], at, halving)
  {
    TypeTotalStep(rows, i, at, halving);
    OnlyOwnType(rows[i], at, halving);
  }

  /** A row of a bucketed type adds its contribution to its own total only. */
  lemma AddStep(byType: map<string, real>, rows: seq<SignalRow>, i: int, at: int, halving: real -> real, amount: real)
    requires 0 <= i < |rows| && Totals(byType, rows[..i], at, halving)
    requires rows[i].signalType in BucketOrder
    requires amount == Contribution(rows[i], rows[i].signalType, at, halving)
    ensures Totals(byType[rows[i].signalType := byType[rows[i].signalType] + amount], rows[..i + 1], at, halving)
  {
    TypeTotalStep(rows, i, at, halving);
    OnlyOwnType(rows[i], at, halving);
  }

  /** The first loop of `collect_community_factors`: the per-type totals. */
  method SumByType(rows: seq<SignalRow>, at: int, halving: real -> real) returns (byType: map<string, real>)
    ensures forall t :: t in byType <==> t in BucketOrder
    ensures forall t :: t in BucketOrder ==> byType[t] == TypeTotal(rows, t, at, halving)
  {
    byType := map["knock" := 0.0, "noise" := 0.0, "calm" := 0.0, "police" := 0.0];
    assert Totals(byType, rows[..0], at, halving);
    for i := 0 to |rows|
      invariant Totals(byType, rows[..i], at, halving)
    {
      var r := rows[i];
      var signalType := r.signalType;
      if BucketOf(signalType).None? {
        SkipStep(byType, rows, i, at, halving);
        continue;
      }
      var cfg := BucketOf(signalType).value;
      var age := AgeDays(at, r.timestamp);
      if age > cfg.window as real {
        SkipStep(byType, rows, i, at, halving);
        continue;
      }
      var amount := cfg.base * Decay(age, cfg.halfLife, halving);
      assert amount == Contribution(r, signalType, at, halving);
      AddStep(byType, rows, i, at, halving, amount);
      byType := byType[signalType := byType[signalType] + amount];
    }
    assert rows[..|rows|] == rows;
  }

  /** `collect_community_factors`. */
  method CollectCommunityFactors(signals: seq<SignalRow>, spotId: string, at: int, halving: real -> real)
    returns (out: seq<ScoredFactor>)
    ensures out == CommunityFactors(RecentSignals(signals, spotId, at), at, halving)
  {
    var rows := RecentSignals(signals, spotId, at);
    var byType := SumByType(rows, at, halving);
    out := [];
    for j := 0 to |BucketOrder|
      invariant out == FactorsFor(BucketOrder[..j], rows, at, halving)
    {
      assert BucketOrder[..j + 1][..j] == BucketOrder[..j];
      var signalType := BucketOrder[j];
      var points := byType[signalType];
      if Abs(points) < 0.5 {
        continue;
      }
      out := out + [ScoredFactor(FactorKey(signalType), BucketOf(signalType).value.name, points, "community")];
    }
    assert BucketOrder[..|BucketOrder|] == BucketOrder;
  }

  // ------------------------------------------------------------ properties

  lemma FactorKeyInjective(a: string, b: string)
    requires FactorKey(a) == FactorKey(b)
    ensures a == b
  {
    assert a == FactorKey(a)[|"community_"|..];
    assert b == FactorKey(b)[|"community_"|..];
  }

  /** Every factor comes from the community signals; type `t` has a factor
      exactly when it is listed and its total reaches half a point, and that
      factor carries the total. */
  predicate Describes(out: seq<ScoredFactor>, order: seq<string>, rows: seq<SignalRow>, at: int, halving: real -> real, t: string) {
    && (forall i :: 0 <= i < |out| ==> out[i].source == "community")
    && ((exists i :: 0 <= i < |out| && out[i].key == FactorKey(t)) <==>
          t in order && Abs(TypeTotal(rows, t, at, halving)) >= 0.5)
    && (forall i :: 0 <= i < |out| && out[i].key == FactorKey(t) ==> out[i].points == TypeTotal(rows, t, at, halving))
  }

  /** A type has a factor exactly when it is listed and its total reaches half
      a point; the factor then carries the total. */
  lemma {:induction false} FactorsForMeaning(order: seq<string>, rows: seq<SignalRow>, at: int, halving: real -> real, t: string)
    requires forall u :: u in order ==> BucketOf(u).Some?
    ensures Describes(FactorsFor(order, rows, at, halving), order, rows, at, halving, t)
  {
    if order != [] {
      var n := |order| - 1;
      var front := order[..n];
      var u := order[n];
      assert order == front + [u];
      FactorsForMeaning(front, rows, at, halving, t);
      var prev := FactorsFor(front, rows, at, halving);
      assert Describes(prev, front, rows, at, halving, t);
      var out := FactorsFor(order, rows, at, halving);
      var total := TypeTotal(rows, u, at, halving);
      var extra := if Abs(total) < 0.5 then [] else [ScoredFactor(FactorKey(u), BucketOf(u).value.name, total, "community")];
      assert out == prev + extra;
      forall i | |prev| <= i < |out| && out[i].key == FactorKey(t)
        ensures u == t && Abs(total) >= 0.5 && out[i].points == total
      {
        FactorKeyInjective(u, t);
      }
      if t == u && Abs(total) >= 0.5 {
        assert out[|prev|].key == FactorKey(t);
      }
      if t in front && Abs(TypeTotal(rows, t, at, halving)) >= 0.5 {
        var i :| 0 <= i < |prev| && prev[i].key == FactorKey(t);
        assert out[i] == prev[i];
      }
      if exists i :: 0 <= i < |out| && out[i].key == FactorKey(t) {
        var i :| 0 <= i < |out| && out[i].key == FactorKey(t);
        if i < |prev| {
          assert out[i] == prev[i];
        } else {
          assert order[n] == t;
        }
      }
      forall i | 0 <= i < |prev| && out[i].key == FactorKey(t)
        ensures out[i].points == TypeTotal(rows, t, at, halving)
      {
        assert out[i] == prev[i];
      }
    }
  }

  /** For distinct listed types, no two factors share a key: at most one factor per type. */
  lemma {:induction false} FactorsForDistinct(order: seq<string>, rows: seq<SignalRow>, at: int, halving: real -> real)
    requires forall u :: u in order ==> BucketOf(u).Some?
    requires forall i, j :: 0 <= i < j < |order| ==> order[i] != order[j]
    ensures var out := FactorsFor(order, rows, at, halving);
            |out| <= |order| && forall i, j :: 0 <= i < j < |out| ==> out[i].key != out[j].key
  {
    if order != [] {
      var n := |order| - 1;
      var front := order[..n];
      var u := order[n];
      FactorsForDistinct(front, rows, at, halving);
      var out := FactorsFor(order, rows, at, halving);
      var prev := FactorsFor(front, rows, at, halving);
      if |out| > |prev| {
        forall k | 0 <= k < n ensures front[k] != u {
          assert front[k] == order[k];
        }
        FactorsForMeaning(front, rows, at, halving, u);
        assert forall i :: 0 <= i < |prev| ==> prev[i].key != FactorKey(u);
        forall i, j | 0 <= i < j < |out| ensures out[i].key != out[j].key {
          assert out[i] == prev[i];
          if j < |prev| { assert out[j] == prev[j]; }
        }
      }
    }
  }

  /** The community factors: at most one per signal type, present exactly when
      the type's total reaches half a point, carrying that total. */
  lemma CommunityFactorsMeaning(rows: seq<SignalRow>, at: int, halving: real -> real, t: string)
    ensures var out := CommunityFactors(rows, at, halving);
            && |out| <= 4
            && (forall i, j :: 0 <= i < j < |out| ==> out[i].key != out[j].key)
            && ((exists i :: 0 <= i < |out| && out[i].key == FactorKey(t)) <==>
                  t in BucketOrder && Abs(TypeTotal(rows, t, at, halving)) >= 0.5)
            && (forall i :: 0 <= i < |out| && out[i].key == FactorKey(t) ==> out[i].points == TypeTotal(rows, t, at, halving))
  {
    FactorsForMeaning(BucketOrder, rows, at, halving, t);
    FactorsForDistinct(BucketOrder, rows, at, halving);
  }

  lemma {:induction false} FactorsForSameTotals(order: seq<string>, rows: seq<SignalRow>, rows': seq<SignalRow>, at: int, halving: real -> real)
    requires forall u :: u in order ==> BucketOf(u).Some?
    requires forall u :: u in order ==> TypeTotal(rows, u, at, halving) == TypeTotal(rows', u, at, halving)
    ensures FactorsFor(order, rows, at, halving) == FactorsFor(order, rows', at, halving)
  {
    if order != [] {
      FactorsForSameTotals(order[..|order| - 1], rows, rows', at, halving);
    }
  }

  /** A signal of an unknown type, or older than its type's window, changes nothing. */
  lemma IgnoredSignal(rows: seq<SignalRow>, r: SignalRow, at: int, halving: real -> real)
    requires BucketOf(r.signalType).None? || AgeDays(at, r.timestamp) > BucketOf(r.signalType).value.window as real
    ensures CommunityFactors(rows + [r], at, halving) == CommunityFactors(rows, at, halving)
  {
    forall u | u in BucketOrder ensures TypeTotal(rows + [r], u, at, halving) == TypeTotal(rows, u, at, halving) {
      assert (rows + [r])[..|rows|] == rows;
    }
    FactorsForSameTotals(BucketOrder, rows + [r], rows, at, halving);
  }

  /** One knock reported at (or after) the scored instant counts with its full
      base weight: a single factor of -25 points, whatever the decay curve. */
  lemma FreshKnock(r: SignalRow, at: int, halving: real -> real)
    requires r.signalType == "knock" && r.timestamp >= at
    ensures CommunityFactors([r], at, halving) == [ScoredFactor("community_knock", "Klopfen gemeldet", -25.0, "community")]
  {
    assert [r][..0] == [];
    var knock := ScoredFactor("community_knock", "Klopfen gemeldet", -25.0, "community");
    assert TypeTotal([r], "knock", at, halving) == -25.0;
    assert FactorsFor(["knock"], [r], at, halving) == [knock] by {
      assert ["knock"][..0] == [];
      assert FactorsFor([], [r], at, halving) == [];
      assert FactorKey("knock") == "community_knock";
      assert BucketOf("knock").value.name == "Klopfen gemeldet";
      assert Abs(-25.0) >= 0.5;
    }
    assert FactorsFor(["knock", "noise"], [r], at, halving) == [knock] by {
      assert ["knock", "noise"][..1] == ["knock"];
      assert TypeTotal([r], "noise", at, halving) == 0.0;
    }
    assert FactorsFor(["knock", "noise", "calm"], [r], at, halving) == [knock] by {
      assert ["knock", "noise", "calm"][..2] == ["knock", "noise"];
      assert TypeTotal([r], "calm", at, halving) == 0.0;
    }
    assert BucketOrder[..3] == ["knock", "noise", "calm"];
    assert TypeTotal([r], "police", at, halving) == 0.0;
  }
}
