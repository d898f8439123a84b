/**
 * `collect_local_event_factors`: imported events that overlap the morning
 * after the scored night (from the night's end to four hours later) and lie
 * within 1000 m of the spot each contribute their risk modifier, once per
 * distinct (type, modifier, start, end, 4-decimal position).
 */
module EventFactors {
  import opened Calendar
  import opened ScoreEngine
  import opened Db
  import opened Factors

  /** The query's condition: the event starts by four hours after the night's
      end and ends no earlier than the night's end. */
  predicate InMorning(e: EventRow, nightEnd: int) {
    e.start <= nightEnd + 4 * SecondsPerHour && e.end >= nightEnd
  }

  /** The rows the query returns, in table order. */
  function MorningEvents(events: seq<EventRow>, nightEnd: int): (rows: seq<EventRow>)
    ensures |rows| <= |events|
    ensures forall e :: e in rows <==> e in events && InMorning(e, nightEnd)
  {
    if events == [] then []
    else
      var rest := MorningEvents(events[1..], nightEnd);
      assert forall e :: e in events <==> e == events[0] || e in events[1..];
      (if InMorning(events[0], nightEnd) then [events[0]] else []) + rest
  }

  /** Each matching row is returned as often as the table holds it, and no
      other row at all. */
  lemma {:induction false} MorningEventsCount(events: seq<EventRow>, nightEnd: int)
    ensures forall e :: multiset(MorningEvents(events, nightEnd))[e]
                        == if InMorning(e, nightEnd) then multiset(events)[e] else 0
  {
    if events != [] {
      MorningEventsCount(events[1..], nightEnd);
      assert events == [events[0]] + events[1..];
    }
  }

  /** The query keeps table order: the rows of a concatenation are the rows
      of each part, one after the other. */
  lemma {:induction false} MorningEventsAppend(a: seq<EventRow>, b: seq<EventRow>, nightEnd: int)
    ensures MorningEvents(a + b, nightEnd) == MorningEvents(a, nightEnd) + MorningEvents(b, nightEnd)
  {
    if a != [] {
      assert (a + b)[1..] == a[1..] + b;
      MorningEventsAppend(a[1..], b, nightEnd);
    } else {
      assert a + b == b;
    }
  }

  /** Not more than 1000 m from the spot. */
  predicate Near(e: EventRow, p: Point, dist: Distance) {
    !(dist(p, Point(e.lat, e.lon)) > 1000.0)
  }

  datatype EventKey = EventKey(eventType: string, risk: int, start: int, end: int, latCell: int, lonCell: int)

  function KeyOf(e: EventRow): EventKey {
    EventKey(e.eventType, e.riskModifier, e.start, e.end, Grid(e.lat), Grid(e.lon))
  }

  function EventLabel(eventType: string): string {
    match eventType
    case "waste" => "Müllabfuhr am Morgen"
    case "market" => "Marktbetrieb am Morgen"
    case "event" => "Lokale Veranstaltung"
    case "construction" => "Baustelle"
    case _ => "Lokales Ereignis"
  }

  function EventFactor(e: EventRow): ScoredFactor {
    ScoredFactor("event_" + e.eventType, EventLabel(e.eventType), e.riskModifier as real, e.source)
  }

  function KeySet(rows: seq<EventRow>): set<EventKey> {
    set e | e in rows :: KeyOf(e)
  }

  /** The keys of the rows near the spot. */
  function NearKeys(rows: seq<EventRow>, p: Point, dist: Distance): set<EventKey> {
    set e | e in rows && Near(e, p, dist) :: KeyOf(e)
  }

  /** The rows the loop turns into factors: the near rows whose key has not
      been seen in an earlier near row. */
  function Kept(rows: seq<EventRow>, p: Point, dist: Distance): seq<EventRow> {
    if rows == [] then []
    else
      var k := Kept(rows[..|rows| - 1], p, dist);
      var e := rows[|rows| - 1];
      if Near(e, p, dist) && KeyOf(e) !in KeySet(k) then k + [e] else k
  }

  /** The row at `i` is near and no earlier near row has its key: the first
      near occurrence of that key. */
  predicate FirstNear(rows: seq<EventRow>, i: nat, p: Point, dist: Distance)
    requires i < |rows|
  {
    && Near(rows[i], p, dist)
    && forall j :: 0 <= j < i && Near(rows[j], p, dist) ==> KeyOf(rows[j]) != KeyOf(rows[i])
  }

  /** The rows that are the first near occurrence of their key, in input order. */
  function FirstNears(rows: seq<EventRow>, p: Point, dist: Distance): seq<EventRow> {
    if rows == [] then []
    else
      var n := |rows| - 1;
      FirstNears(rows[..n], p, dist) + (if FirstNear(rows, n, p, dist) then [rows[n]] else [])
  }

  function FactorsOf(rows: seq<EventRow>): (fs: seq<ScoredFactor>)
    ensures |fs| == |rows|
    ensures forall i :: 0 <= i < |rows| ==> fs[i] == EventFactor(rows[i])
  {
    seq(|rows|, i requires 0 <= i < |rows| => EventFactor(rows[i]))
  }

  /** Every kept row is a near row of the input. */
  lemma {:induction false} KeptAreNear(rows: seq<EventRow>, p: Point, dist: Distance)
    ensures forall e :: e in Kept(rows, p, dist) ==> e in rows && Near(e, p, dist)
  {
    if rows != [] {
      var n := |rows| - 1;
      KeptAreNear(rows[..n], p, dist);
      assert forall e :: e in rows[..n] ==> e in rows;
    }
  }

  predicate KeysDistinct(rows: seq<EventRow>) {
    forall i, j :: 0 <= i < j < |rows| ==> KeyOf(rows[i]) != KeyOf(rows[j])
  }

  /** No two kept rows share a key. */
  lemma {:induction false} KeptKeysDistinct(rows: seq<EventRow>, p: Point, dist: Distance)
    ensures KeysDistinct(Kept(rows, p, dist))
  {
    if rows != [] {
      var n := |rows| - 1;
      KeptKeysDistinct(rows[..n], p, dist);
      var k := Kept(rows[..n], p, dist);
      var e := rows[n];
      if Near(e, p, dist) && KeyOf(e) !in KeySet(k) {
        var k2 := k + [e];
        forall i, j | 0 <= i < j < |k2| ensures KeyOf(k2[i]) != KeyOf(k2[j]) {
          assert k2[i] == k[i];
          if j == |k| {
            assert k[i] in k;
          } else {
            assert k2[j] == k[j];
          }
        }
      }
    }
  }

  /** The kept rows carry every key of the near rows. */
  lemma {:induction false} KeptCoverNearKeys(rows: seq<EventRow>, p: Point, dist: Distance)
    ensures KeySet(Kept(rows, p, dist)) == NearKeys(rows, p, dist)
  {
    if rows != [] {
      var n := |rows| - 1;
      var front := rows[..n];
      var e := rows[n];
      KeptCoverNearKeys(front, p, dist);
      var k := Kept(front, p, dist);
      assert rows == front + [e];
      assert NearKeys(rows, p, dist) == NearKeys(front, p, dist) + (if Near(e, p, dist) then {KeyOf(e)} else {});
      if Near(e, p, dist) && KeyOf(e) !in KeySet(k) {
        assert KeySet(k + [e]) == KeySet(k) + {KeyOf(e)};
      }
    }
  }

  /** As many kept rows as they have keys. */
  lemma {:induction false} KeptCount(rows: seq<EventRow>, p: Point, dist: Distance)
    ensures |Kept(rows, p, dist)| == |KeySet(Kept(rows, p, dist))|
  {
    if rows != [] {
      var n := |rows| - 1;
      KeptCount(rows[..n], p, dist);
      var k := Kept(rows[..n], p, dist);
      var e := rows[n];
      if Near(e, p, dist) && KeyOf(e) !in KeySet(k) {
        assert KeySet(k + [e]) == KeySet(k) + {KeyOf(e)};
      }
    }
  }

  /** The rows the loop keeps are exactly the first near occurrence of each
      key, in input order. */
  lemma {:induction false} KeptIsFirstNears(rows: seq<EventRow>, p: Point, dist: Distance)
    ensures Kept(rows, p, dist) == FirstNears(rows, p, dist)
  {
    if rows != [] {
      var n := |rows| - 1;
      var front := rows[..n];
      var e := rows[n];
      KeptIsFirstNears(front, p, dist);
      KeptCoverNearKeys(front, p, dist);
      if Near(e, p, dist) {
        if KeyOf(e) in NearKeys(front, p, dist) {
          var x :| x in front && Near(x, p, dist) && KeyOf(x) == KeyOf(e);
          var j :| 0 <= j < n && front[j] == x;
          assert rows[j] == x;
          assert !FirstNear(rows, n, p, dist);
        } else {
          forall j | 0 <= j < n && Near(rows[j], p, dist) ensures KeyOf(rows[j]) != KeyOf(e) {
            assert rows[j] == front[j];
          }
          assert FirstNear(rows, n, p, dist);
        }
      }
    }
  }

  /** The loop emits one factor per distinct key of the near events, from the
      first near event of each key, in input order. */
  lemma KeptMeaning(rows: seq<EventRow>, p: Point, dist: Distance)
    ensures var kept := Kept(rows, p, dist);
            && kept == FirstNears(rows, p, dist)
            && (forall e :: e in kept ==> e in rows && Near(e, p, dist))
            && KeysDistinct(kept)
            && |FactorsOf(kept)| == |NearKeys(rows, p, dist)|
  {
    KeptIsFirstNears(rows, p, dist);
    KeptAreNear(rows, p, dist);
    KeptKeysDistinct(rows, p, dist);
    KeptCoverNearKeys(rows, p, dist);
    KeptCount(rows, p, dist);
  }

  /** `collect_local_event_factors`. */
  method CollectLocalEventFactors(events: seq<EventRow>, p: Point, nightEnd: int, dist: Distance)
    returns (factors: seq<ScoredFactor>)
    ensures factors == FactorsOf(Kept(MorningEvents(events, nightEnd), p, dist))
    ensures factors == FactorsOf(FirstNears(MorningEvents(events, nightEnd), p, dist))
  {
    var rows := MorningEvents(events, nightEnd);
    KeptIsFirstNears(rows, p, dist);
    factors := [];
    var seen: set<EventKey> := {};
    for i := 0 to |rows|
      invariant factors == FactorsOf(Kept(rows[..i], p, dist))
      invariant seen == KeySet(Kept(rows[..i], p, dist))
    {
      assert rows[..i + 1][..i] == rows[..i];
      var e := rows[i];
      var distance := dist(p, Point(e.lat, e.lon));
      if distance > 1000.0 {
        continue;
      }
      var key := KeyOf(e);
      if key in seen {
        continue;
      }
      ghost var k := Kept(rows[..i], p, dist);
      assert KeySet(k + [e]) == KeySet(k) + {key};
      seen := seen + {key};
      factors := factors + [EventFactor(e)];
    }
    assert rows[..|rows|] == rows;
  }

  /** An event that ends exactly when the night ends still counts; one that
      ends a second earlier, or starts more than four hours later, does not. */
  lemma MorningBoundaries(e: EventRow, nightEnd: int)
    ensures e.end == nightEnd && e.start <= nightEnd ==> InMorning(e, nightEnd)
    ensures e.end < nightEnd || e.start > nightEnd + 4 * SecondsPerHour ==> !InMorning(e, nightEnd)
  {
  }
}
