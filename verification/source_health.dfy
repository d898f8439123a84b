/**
 * `data_source_meta` and `source_health`: the import state of every data
 * source, newest import first, and a summary of how old the imports are.
 */
module SourceHealth {
  import opened Wrappers
  import opened Calendar
  import opened ScoreEngine
  import opened Db
  import opened Sorting

  /** A row of `data_source_state` as the payload lists it. */
  datatype SourceMeta = SourceMeta(name: string, importedAt: int, recordCount: int, notes: string)

  function MetaOf(state: map<string, SourceState>, name: string): SourceMeta
    requires name in state
  {
    SourceMeta(name, state[name].importedAt, state[name].recordCount, state[name].notes)
  }

  /** `ORDER BY imported_at DESC`. */
  function NewerFirst(): (SourceMeta, SourceMeta) -> bool {
    (a: SourceMeta, b: SourceMeta) => a.importedAt >= b.importedAt
  }

  /** No two entries name the same source. */
  predicate DistinctNames(rows: seq<SourceMeta>) {
    forall i, j :: 0 <= i < j < |rows| ==> rows[i].name != rows[j].name
  }

  /** The entries of the sources, in the order of the given names. */
  function Listing(state: map<string, SourceState>, names: seq<string>): (rows: seq<SourceMeta>)
    requires forall n :: n in names ==> n in state
    ensures |rows| == |names|
    ensures forall i :: 0 <= i < |names| ==> rows[i] == MetaOf(state, names[i])
  {
    seq(|names|, i requires 0 <= i < |names| => MetaOf(state, names[i]))
  }

  lemma ListingMeaning(state: map<string, SourceState>, names: seq<string>)
    requires StrictlyAscending(names) && forall n :: n in names <==> n in state
    ensures DistinctNames(Listing(state, names))
    ensures forall r :: r in Listing(state, names) <==> r.name in state && r == MetaOf(state, r.name)
  {
    var rows := Listing(state, names);
    forall r: SourceMeta | r.name in state && r == MetaOf(state, r.name) ensures r in rows {
      var k :| 0 <= k < |names| && names[k] == r.name;
      assert rows[k] == r;
    }
  }

  lemma CountOne(a: seq<SourceMeta>, k: int)
    requires DistinctNames(a) && 0 <= k < |a|
    ensures multiset(a)[a[k]] == 1
  {
    assert a == a[..k] + [a[k]] + a[k + 1..];
    assert a[k] !in a[..k];
    assert a[k] !in a[k + 1..];
  }

  lemma CountTwo(b: seq<SourceMeta>, i: int, j: int)
    requires 0 <= i < j < |b|
    ensures b[i] == b[j] ==> multiset(b)[b[i]] >= 2
  {
    assert b == b[..i] + [b[i]] + b[i + 1..j] + [b[j]] + b[j + 1..];
  }

  /** Reordering keeps the names distinct. */
  lemma PermutationDistinctNames(a: seq<SourceMeta>, b: seq<SourceMeta>)
    requires multiset(a) == multiset(b) && DistinctNames(a)
    ensures DistinctNames(b)
  {
    forall i, j | 0 <= i < j < |b| ensures b[i].name != b[j].name {
      assert b[i] in multiset(a) && b[j] in multiset(a);
      var k :| 0 <= k < |a| && a[k] == b[i];
      var l :| 0 <= l < |a| && a[l] == b[j];
      CountOne(a, k);
      CountTwo(b, i, j);
    }
  }

  /** `data_source_meta`: one entry per source, newest import first. */
  method DataSourceMeta(state: map<string, SourceState>) returns (rows: seq<SourceMeta>)
    ensures SortedBy(rows, NewerFirst())
    ensures forall r :: r in rows <==> r.name in state && r == MetaOf(state, r.name)
    ensures DistinctNames(rows)
  {
    var names := SortedStrings(state.Keys);
    var listed := Listing(state, names);
    ListingMeaning(state, names);
    rows := SortBy(listed, NewerFirst());
    SortBySorted(listed, NewerFirst());
    PermutationDistinctNames(listed, rows);
    assert forall r :: r in rows <==> r in multiset(listed);
  }

  // ---------------------------------------------------------------- health

  /** The summary `source_health` returns; the ages are in hours. */
  datatype Health = Health(freshest: Option<real>, stalest: Option<real>, staleSources: seq<string>, hasData: bool)

  /** An import older than this many hours is stale. */
  const StaleAfterHours := 24.0

  /** A source's name and the import instant read from its `imported_at`
      (`None` when reading it raised). */
  datatype Stamp = Stamp(name: string, importedAt: Option<int>)

  datatype Age = Age(name: string, hours: real)

  /** `max(0.0, (now - imported) / 1 h)`. */
  function AgeHours(now: int, importedAt: int): (h: real)
    ensures h >= 0.0
    ensures importedAt >= now ==> h == 0.0
  {
    var a := (now - importedAt) as real / 3600.0;
    if a > 0.0 then a else 0.0
  }

  /** The ages of the sources whose import instant could be read, in order. */
  function Ages(sources: seq<Stamp>, now: int): (ages: seq<Age>)
    ensures |ages| <= |sources|
  {
    if sources == [] then []
    else
      var n := |sources| - 1;
      var rest := Ages(sources[..n], now);
      var s := sources[n];
      if s.importedAt.None? then rest else rest + [Age(s.name, AgeHours(now, s.importedAt.value))]
  }

  /** An age is listed exactly for each source whose import instant could be read. */
  lemma {:induction false} AgesMeaning(sources: seq<Stamp>, now: int)
    ensures forall a :: a in Ages(sources, now) <==>
              exists i :: 0 <= i < |sources| && sources[i].importedAt.Some?
                          && a == Age(sources[i].name, AgeHours(now, sources[i].importedAt.value))
  {
    if sources != [] {
      var n := |sources| - 1;
      AgesMeaning(sources[..n], now);
      assert forall i :: 0 <= i < n ==> sources[..n][i] == sources[i];
    }
  }

  /** The names of the stale ages, in order. */
  function StaleNames(ages: seq<Age>): (names: seq<string>)
  {
    if ages == [] then []
    else
      var n := |ages| - 1;
      StaleNames(ages[..n]) + (if ages[n].hours > StaleAfterHours then [ages[n].name] else [])
  }

  lemma {:induction false} StaleNamesMeaning(ages: seq<Age>)
    ensures forall x :: x in StaleNames(ages) <==> exists a :: a in ages && a.name == x && a.hours > StaleAfterHours
  {
    if ages != [] {
      var n := |ages| - 1;
      StaleNamesMeaning(ages[..n]);
      assert forall a :: a in ages <==> a in ages[..n] || a == ages[n];
    }
  }

  /** `min(age for _, age in ages)`. */
  function MinHours(ages: seq<Age>): (m: real)
    requires ages != []
    ensures exists a :: a in ages && a.hours == m
    ensures forall a :: a in ages ==> m <= a.hours
  {
    if |ages| == 1 then ages[0].hours
    else
      var m := MinHours(ages[1..]);
      assert forall a :: a in ages <==> a == ages[0] || a in ages[1..];
      if ages[0].hours <= m then ages[0].hours else m
  }

  /** `max(age for _, age in ages)`. */
  function MaxHours(ages: seq<Age>): (m: real)
    requires ages != []
    ensures exists a :: a in ages && a.hours == m
    ensures forall a :: a in ages ==> a.hours <= m
  {
    if |ages| == 1 then ages[0].hours
    else
      var m := MaxHours(ages[1..]);
      assert forall a :: a in ages <==> a == ages[0] || a in ages[1..];
      if ages[0].hours >= m then ages[0].hours else m
  }

  /** `round(x, 2)`. */
  function Round2(x: real): (r: real)
    ensures -0.005 <= x - r <= 0.005
  {
    RoundHalfEven(x * 100.0) as real / 100.0
  }

  lemma RoundHalfEvenMonotone(x: real, y: real)
    requires x <= y
    ensures RoundHalfEven(x) <= RoundHalfEven(y)
  {
  }

  lemma Round2Monotone(x: real, y: real)
    requires 0.0 <= x <= y
    ensures 0.0 <= Round2(x) <= Round2(y)
  {
    RoundHalfEvenMonotone(x * 100.0, y * 100.0);
    RoundHalfEvenMonotone(0.0, x * 100.0);
  }

  /** `source_health` as a function of the sources and the clock. */
  function HealthOf(sources: seq<Stamp>, now: int): Health {
    var ages := Ages(sources, now);
    if ages == [] then Health(None, None, [], false)
    else Health(Some(Round2(MinHours(ages))), Some(Round2(MaxHours(ages))), StaleNames(ages), true)
  }

  /** There is data exactly when some import instant could be read; the
      freshest and stalest ages then bracket every readable source's age, to
      the rounding, and the stale sources are those older than 24 hours. */
  lemma HealthMeaning(sources: seq<Stamp>, now: int)
    ensures var h := HealthOf(sources, now);
            && (h.hasData <==> exists i :: 0 <= i < |sources| && sources[i].importedAt.Some?)
            && (!h.hasData ==> h == Health(None, None, [], false))
            && (h.hasData ==> h.freshest.Some? && h.stalest.Some? && 0.0 <= h.freshest.value <= h.stalest.value)
            && (h.hasData ==> forall i :: 0 <= i < |sources| && sources[i].importedAt.Some? ==>
                  h.freshest.value - 0.005 <= AgeHours(now, sources[i].importedAt.value) <= h.stalest.value + 0.005)
            && (forall x :: x in h.staleSources <==>
                  exists i :: 0 <= i < |sources| && sources[i].importedAt.Some? && sources[i].name == x
                              && AgeHours(now, sources[i].importedAt.value) > StaleAfterHours)
  {
    var ages := Ages(sources, now);
    AgesMeaning(sources, now);
    if exists i :: 0 <= i < |sources| && sources[i].importedAt.Some? {
      var i :| 0 <= i < |sources| && sources[i].importedAt.Some?;
      assert Age(sources[i].name, AgeHours(now, sources[i].importedAt.value)) in ages;
    }
    if ages != [] {
      var lo := MinHours(ages);
      var hi := MaxHours(ages);
      assert lo <= hi && lo >= 0.0 by {
        var a :| a in ages && a.hours == lo;
      }
      Round2Monotone(lo, hi);
      forall i | 0 <= i < |sources| && sources[i].importedAt.Some?
        ensures lo <= AgeHours(now, sources[i].importedAt.value) <= hi
      {
        assert Age(sources[i].name, AgeHours(now, sources[i].importedAt.value)) in ages;
      }
    }
    StaleSourcesMeaning(sources, now);
  }

  /** The stale names are those of the readable sources older than 24 hours. */
  lemma StaleSourcesMeaning(sources: seq<Stamp>, now: int)
    ensures forall x :: x in StaleNames(Ages(sources, now)) <==>
              exists i :: 0 <= i < |sources| && sources[i].importedAt.Some? && sources[i].name == x
                          && AgeHours(now, sources[i].importedAt.value) > StaleAfterHours
  {
    var ages := Ages(sources, now);
    AgesMeaning(sources, now);
    StaleNamesMeaning(ages);
    forall x ensures x in StaleNames(ages) <==>
                       exists i :: 0 <= i < |sources| && sources[i].importedAt.Some? && sources[i].name == x
                                   && AgeHours(now, sources[i].importedAt.value) > StaleAfterHours
    {
      if x in StaleNames(ages) {
        var a :| a in ages && a.name == x && a.hours > StaleAfterHours;
        var i :| 0 <= i < |sources| && sources[i].importedAt.Some?
                 && a == Age(sources[i].name, AgeHours(now, sources[i].importedAt.value));
      }
      if exists i :: 0 <= i < |sources| && sources[i].importedAt.Some? && sources[i].name == x
                     && AgeHours(now, sources[i].importedAt.value) > StaleAfterHours {
        var i :| 0 <= i < |sources| && sources[i].importedAt.Some? && sources[i].name == x
                 && AgeHours(now, sources[i].importedAt.value) > StaleAfterHours;
        assert Age(sources[i].name, AgeHours(now, sources[i].importedAt.value)) in ages;
      }
    }
  }

  lemma AgesStep(sources: seq<Stamp>, i: int, now: int)
    requires 0 <= i < |sources|
    ensures Ages(sources[..i + 1], now)
            == Ages(sources[..i], now)
               + (if sources[i].importedAt.None? then []
                  else [Age(sources[i].name, AgeHours(now, sources[i].importedAt.value))])
  {
    assert sources[..i + 1][..i] == sources[..i];
  }

  lemma StaleNamesStep(ages: seq<Age>, a: Age)
    ensures StaleNames(ages + [a]) == StaleNames(ages) + (if a.hours > StaleAfterHours then [a.name] else [])
  {
    assert (ages + [a])[..|ages|] == ages;
  }

  /** `source_health`: one pass over the sources collecting the ages and the
      stale names, then the rounded extremes. */
  method SourceHealthOf(sources: seq<Stamp>, now: int) returns (h: Health)
    ensures h == HealthOf(sources, now)
  {
    if sources == [] {
      return Health(None, None, [], false);
    }
    var ages: seq<Age> := [];
    var stale: seq<string> := [];
    for i := 0 to |sources|
      invariant ages == Ages(sources[..i], now)
      invariant stale == StaleNames(ages)
    {
      AgesStep(sources, i, now);
      var src := sources[i];
      if src.importedAt.None? {
        continue;
      }
      var ageH := AgeHours(now, src.importedAt.value);
      StaleNamesStep(ages, Age(src.name, ageH));
      ages := ages + [Age(src.name, ageH)];
      if ageH > StaleAfterHours {
        stale := stale + [src.name];
      }
    }
    assert sources[..|sources|] == sources;
    if ages == [] {
      return Health(None, None, [], false);
    }
    h := Health(Some(Round2(MinHours(ages))), Some(Round2(MaxHours(ages))), stale, true);
  }

  /** The stamps `compute_score_payload` hands to `source_health`: every
      stored import instant is readable. */
  function StampsOf(rows: seq<SourceMeta>): (stamps: seq<Stamp>)
    ensures |stamps| == |rows|
    ensures forall i :: 0 <= i < |rows| ==> stamps[i] == Stamp(rows[i].name, Some(rows[i].importedAt))
  {
    seq(|rows|, i requires 0 <= i < |rows| => Stamp(rows[i].name, Some(rows[i].importedAt)))
  }
}
