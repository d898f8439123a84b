/**
 * `handle_signal`: the submission gate for community signals. A submission is
 * validated field by field, its timestamp is clamped to the server's clock
 * (five minutes of slack), and it is refused while the same device has a
 * signal for the same spot in the cooldown window before it. Otherwise one
 * row is inserted, unless the table's unique (spot, device, day) index or its
 * primary key refuses it.
 */
module SignalGate {
  import opened Wrappers
  import opened Json
  import opened Calendar
  import opened Db

  /** The cooldown when `STAYSENSE_SIGNAL_COOLDOWN_HOURS` is not set. */
  const DefaultCooldownHours: nat := 24

  /** How far past the server's clock a submitted timestamp may lie. */
  const FutureSlack := 5 * 60

  /** A submission that passed validation. */
  datatype Submission = Submission(spotId: string, signalType: string, deviceToken: string, timestamp: int)

  /** The validation's verdict: a submission, a 400 error code, or an
      exception that escapes the handler. */
  datatype Parsed = Checked(sub: Submission) | Invalid(error: string) | Crash

  predicate SpotIdGiven(d: map<string, Json>) {
    var v := Get(d, "spot_id", JNull);
    v.JStr? && v.s != ""
  }

  predicate KnownSignalType(j: Json) {
    j.JStr? && j.s in SignalTypes
  }

  predicate TokenLongEnough(j: Json) {
    j.JStr? && |j.s| >= 16
  }

  /** The validation steps of `handle_signal`, in their order. The timestamp
      is parsed before any field is checked, so a bad timestamp raises first. */
  function ParseSubmission(body: Option<Json>, conv: Conversions, now: int): (r: Parsed)
    ensures body.None? <==> r == Invalid("invalid_json")
    ensures r.Checked? ==> r.sub.spotId != "" && r.sub.signalType in SignalTypes && |r.sub.deviceToken| >= 16
  {
    match body
    case None => Invalid("invalid_json")
    case Some(JObj(d)) =>
      var spotId := Get(d, "spot_id", JNull);
      var signalType := Get(d, "signal_type", JNull);
      var token := Get(d, "device_token", JNull);
      (match ParseIso8601(Get(d, "timestamp", JNull), conv, now)
       case None => Crash
       case Some(ts) =>
         if !SpotIdGiven(d) then Invalid("spot_id_required")
         else if Unhashable(signalType) then Crash
         else if !KnownSignalType(signalType) then Invalid("invalid_signal_type")
         else if !TokenLongEnough(token) then Invalid("invalid_device_token")
         else Checked(Submission(spotId.s, signalType.s, token.s, ts)))
    case Some(_) => Crash
  }

  /** The checks run in the order spot id, signal type, device token: each
      error is reported exactly when the earlier checks pass and its own fails. */
  lemma RejectionOrder(d: map<string, Json>, conv: Conversions, now: int)
    requires ParseIso8601(Get(d, "timestamp", JNull), conv, now).Some?
    requires !Unhashable(Get(d, "signal_type", JNull))
    ensures var r := ParseSubmission(Some(JObj(d)), conv, now);
            var signalType := Get(d, "signal_type", JNull);
            var token := Get(d, "device_token", JNull);
            && (r == Invalid("spot_id_required") <==> !SpotIdGiven(d))
            && (r == Invalid("invalid_signal_type") <==> SpotIdGiven(d) && !KnownSignalType(signalType))
            && (r == Invalid("invalid_device_token") <==>
                  SpotIdGiven(d) && KnownSignalType(signalType) && !TokenLongEnough(token))
            && (r.Checked? <==> SpotIdGiven(d) && KnownSignalType(signalType) && TokenLongEnough(token))
            && (r.Checked? ==> r.sub.timestamp == ParseIso8601(Get(d, "timestamp", JNull), conv, now).value)
  {
  }

  /** The outcome of `handle_signal`. */
  datatype Outcome =
    | Accepted(row: SignalRow, cooldownHours: int)
    | Rejected(error: string, nextAllowedAt: Option<int>)
    | Crashed

  /** A timestamp more than five minutes past the clock is replaced by the clock. */
  function ClampFuture(ts: int, now: int): (r: int)
    ensures r <= now + FutureSlack
    ensures r == ts || r == now
    ensures ts <= now + FutureSlack <==> r == ts
  {
    if ts > now + FutureSlack then now else ts
  }

  /** A stored signal the cooldown query finds. */
  predicate InCooldown(s: SignalRow, spotId: string, hashed: string, from: int) {
    s.spotId == spotId && s.hashedDevice == hashed && s.timestamp >= from
  }

  /** The cooldown query: the latest timestamp of the device's signals for the
      spot at or after `from`, if there is one. */
  function LatestSince(signals: seq<SignalRow>, spotId: string, hashed: string, from: int): (r: Option<int>)
    ensures r.None? <==> forall i :: 0 <= i < |signals| ==> !InCooldown(signals[i], spotId, hashed, from)
    ensures r.Some? ==> exists i :: 0 <= i < |signals| && InCooldown(signals[i], spotId, hashed, from)
                                    && signals[i].timestamp == r.value
    ensures r.Some? ==> forall i :: 0 <= i < |signals| && InCooldown(signals[i], spotId, hashed, from)
                                    ==> signals[i].timestamp <= r.value
  {
    if signals == [] then None
    else
      var n := |signals| - 1;
      var rest := LatestSince(signals[..n], spotId, hashed, from);
      var s := signals[n];
      assert forall i :: 0 <= i < n ==> signals[..n][i] == signals[i];
      if !InCooldown(s, spotId, hashed, from) then rest
      else if rest.Some? && rest.value >= s.timestamp then rest
      else Some(s.timestamp)
  }

  /** The insert fails: the id is taken, or the device already has a signal
      for the spot on that day. */
  predicate InsertRefused(signals: seq<SignalRow>, row: SignalRow) {
    exists i :: 0 <= i < |signals| && (signals[i].id == row.id || SameBucket(signals[i], row))
  }

  /** The gate for a validated submission against the spot and signal tables,
      with the clock at `now`, the device hash `hashDevice` and `newId` the
      random id of the new row. */
  function Decide(sub: Submission, spots: map<string, SpotRow>, signals: seq<SignalRow>,
                  hashDevice: string -> string, now: int, newId: string, cooldownHours: int): (o: Outcome)
    ensures o.Accepted? ==>
              && o.row == SignalRow(newId, sub.spotId, sub.signalType, hashDevice(sub.deviceToken),
                                    ClampFuture(sub.timestamp, now), DayOf(ClampFuture(sub.timestamp, now)))
              && sub.spotId in spots && !InsertRefused(signals, o.row)
              && forall i :: 0 <= i < |signals| ==>
                   !InCooldown(signals[i], sub.spotId, o.row.hashedDevice, o.row.timestamp - cooldownHours * SecondsPerHour)
    ensures o.Rejected? && o.error == "cooldown_active" ==>
              var from := ClampFuture(sub.timestamp, now) - cooldownHours * SecondsPerHour;
              && o.nextAllowedAt.Some? && o.nextAllowedAt.value >= ClampFuture(sub.timestamp, now)
              && (exists i :: 0 <= i < |signals| && InCooldown(signals[i], sub.spotId, hashDevice(sub.deviceToken), from)
                              && o.nextAllowedAt.value == signals[i].timestamp + cooldownHours * SecondsPerHour)
              && (forall i :: 0 <= i < |signals| && InCooldown(signals[i], sub.spotId, hashDevice(sub.deviceToken), from)
                              ==> signals[i].timestamp + cooldownHours * SecondsPerHour <= o.nextAllowedAt.value)
    ensures !o.Crashed?
  {
    var hashed := hashDevice(sub.deviceToken);
    var ts := ClampFuture(sub.timestamp, now);
    var from := ts - cooldownHours * SecondsPerHour;
    if sub.spotId !in spots then Rejected("unknown_spot_id", None)
    else
      match LatestSince(signals, sub.spotId, hashed, from)
      case Some(latest) => Rejected("cooldown_active", Some(latest + cooldownHours * SecondsPerHour))
      case None =>
        var row := SignalRow(newId, sub.spotId, sub.signalType, hashed, ts, DayOf(ts));
        if InsertRefused(signals, row) then Rejected("daily_limit", None)
        else Accepted(row, cooldownHours)
  }

  /** The start of the cooldown window: the clamped timestamp less the cooldown. */
  function CooldownStart(sub: Submission, now: int, cooldownHours: int): int {
    ClampFuture(sub.timestamp, now) - cooldownHours * SecondsPerHour
  }

  /** The device has a signal for the spot inside the cooldown window. */
  predicate AnyInCooldown(signals: seq<SignalRow>, sub: Submission, hashDevice: string -> string, now: int,
                          cooldownHours: int) {
    exists i :: 0 <= i < |signals|
                && InCooldown(signals[i], sub.spotId, hashDevice(sub.deviceToken), CooldownStart(sub, now, cooldownHours))
  }

  /** The row an accepted submission stores. */
  function NewRow(sub: Submission, hashDevice: string -> string, now: int, newId: string): SignalRow {
    var ts := ClampFuture(sub.timestamp, now);
    SignalRow(newId, sub.spotId, sub.signalType, hashDevice(sub.deviceToken), ts, DayOf(ts))
  }

  /** Each outcome of the gate happens exactly in its own case: an unknown
      spot; a known spot with a signal of the device inside the cooldown
      window, answered with the latest one's end of cooldown; a refused
      insert; otherwise the new row is accepted. */
  lemma DecideMeaning(sub: Submission, spots: map<string, SpotRow>, signals: seq<SignalRow>,
                      hashDevice: string -> string, now: int, newId: string, cooldownHours: int)
    ensures Decide(sub, spots, signals, hashDevice, now, newId, cooldownHours) == Rejected("unknown_spot_id", None)
            <==> sub.spotId !in spots
    ensures var o := Decide(sub, spots, signals, hashDevice, now, newId, cooldownHours);
            o.Rejected? && o.error == "cooldown_active"
            <==> sub.spotId in spots && AnyInCooldown(signals, sub, hashDevice, now, cooldownHours)
    ensures var o := Decide(sub, spots, signals, hashDevice, now, newId, cooldownHours);
            var from := CooldownStart(sub, now, cooldownHours);
            o.Rejected? && o.error == "cooldown_active" ==>
              o.nextAllowedAt == Some(LatestSince(signals, sub.spotId, hashDevice(sub.deviceToken), from).value
                                      + cooldownHours * SecondsPerHour)
    ensures Decide(sub, spots, signals, hashDevice, now, newId, cooldownHours) == Rejected("daily_limit", None)
            <==> && sub.spotId in spots && !AnyInCooldown(signals, sub, hashDevice, now, cooldownHours)
                 && InsertRefused(signals, NewRow(sub, hashDevice, now, newId))
    ensures Decide(sub, spots, signals, hashDevice, now, newId, cooldownHours)
            == Accepted(NewRow(sub, hashDevice, now, newId), cooldownHours)
            <==> && sub.spotId in spots && !AnyInCooldown(signals, sub, hashDevice, now, cooldownHours)
                 && !InsertRefused(signals, NewRow(sub, hashDevice, now, newId))
    ensures Decide(sub, spots, signals, hashDevice, now, newId, cooldownHours).Accepted?
            || Decide(sub, spots, signals, hashDevice, now, newId, cooldownHours).Rejected?
  {
    var hashed := hashDevice(sub.deviceToken);
    var from := CooldownStart(sub, now, cooldownHours);
    var latest := LatestSince(signals, sub.spotId, hashed, from);
    var o := Decide(sub, spots, signals, hashDevice, now, newId, cooldownHours);
    assert "unknown_spot_id"[0] != "cooldown_active"[0] && "cooldown_active"[0] != "daily_limit"[0]
           && "daily_limit"[0] != "unknown_spot_id"[0];
    if sub.spotId !in spots {
      assert o == Rejected("unknown_spot_id", None);
    } else if latest.Some? {
      assert o == Rejected("cooldown_active", Some(latest.value + cooldownHours * SecondsPerHour));
    } else {
      assert forall i :: 0 <= i < |signals| ==> !InCooldown(signals[i], sub.spotId, hashed, from);
    }
  }

  /** `handle_signal` as a function of the request body, the two clock
      readings it takes (`nowParse` when the timestamp is missing, `now` for
      the clamp) and the tables. */
  function SignalOutcome(body: Option<Json>, conv: Conversions, nowParse: int, now: int,
                         spots: map<string, SpotRow>, signals: seq<SignalRow>,
                         hashDevice: string -> string, newId: string, cooldownHours: int): Outcome
  {
    match ParseSubmission(body, conv, nowParse)
    case Crash => Crashed
    case Invalid(e) => Rejected(e, None)
    case Checked(sub) => Decide(sub, spots, signals, hashDevice, now, newId, cooldownHours)
  }

  // ------------------------------------------------------------ properties

  lemma SameDayClose(a: int, b: int)
    requires DayOf(a) == DayOf(b)
    ensures b - SecondsPerDay < a
  {
    var q := a / SecondsPerDay;
    assert a == q * SecondsPerDay + a % SecondsPerDay;
    assert b == q * SecondsPerDay + b % SecondsPerDay;
  }

  /** With a cooldown of at least a day, the unique (spot, device, day) index
      never refuses a row the cooldown let through: `daily_limit` then only
      reports a clash of the random row id. */
  lemma DailyLimitOnlyOnIdClash(sub: Submission, spots: map<string, SpotRow>, signals: seq<SignalRow>,
                                hashDevice: string -> string, now: int, newId: string, cooldownHours: int)
    requires SignalsValid(signals, spots)
    requires cooldownHours >= 24
    ensures Decide(sub, spots, signals, hashDevice, now, newId, cooldownHours) == Rejected("daily_limit", None) ==>
              exists i :: 0 <= i < |signals| && signals[i].id == newId
  {
    var hashed := hashDevice(sub.deviceToken);
    var ts := ClampFuture(sub.timestamp, now);
    var from := ts - cooldownHours * SecondsPerHour;
    var row := SignalRow(newId, sub.spotId, sub.signalType, hashed, ts, DayOf(ts));
    if Decide(sub, spots, signals, hashDevice, now, newId, cooldownHours) == Rejected("daily_limit", None) {
      assert LatestSince(signals, sub.spotId, hashed, from).None?;
      var i :| 0 <= i < |signals| && (signals[i].id == row.id || SameBucket(signals[i], row));
      if signals[i].id != newId {
        SameDayClose(signals[i].timestamp, ts);
        assert InCooldown(signals[i], sub.spotId, hashed, from);
        assert false;
      }
    }
  }

  /** The same device reporting the same spot one hour after an accepted
      signal is refused until a full cooldown after the first signal. */
  lemma SecondReportWithinCooldown(first: SignalRow, sub: Submission, spots: map<string, SpotRow>,
                                   hashDevice: string -> string, now: int, newId: string)
    requires sub.spotId in spots && first.spotId == sub.spotId && first.hashedDevice == hashDevice(sub.deviceToken)
    requires sub.timestamp == first.timestamp + SecondsPerHour && sub.timestamp <= now + FutureSlack
    ensures Decide(sub, spots, [first], hashDevice, now, newId, DefaultCooldownHours)
            == Rejected("cooldown_active", Some(first.timestamp + 24 * SecondsPerHour))
  {
    var r := LatestSince([first], sub.spotId, hashDevice(sub.deviceToken), sub.timestamp - 24 * SecondsPerHour);
    assert InCooldown([first][0], sub.spotId, hashDevice(sub.deviceToken), sub.timestamp - 24 * SecondsPerHour);
    assert r == Some(first.timestamp);
  }

  /** Twenty-five hours later the same report is accepted, given a fresh id. */
  lemma SecondReportAfterCooldown(first: SignalRow, sub: Submission, spots: map<string, SpotRow>,
                                  hashDevice: string -> string, now: int, newId: string)
    requires sub.spotId in spots && first.spotId == sub.spotId && first.hashedDevice == hashDevice(sub.deviceToken)
    requires first.dayBucket == DayOf(first.timestamp) && first.id != newId
    requires sub.timestamp == first.timestamp + 25 * SecondsPerHour && sub.timestamp <= now + FutureSlack
    ensures Decide(sub, spots, [first], hashDevice, now, newId, DefaultCooldownHours).Accepted?
  {
    var ts := sub.timestamp;
    var row := SignalRow(newId, sub.spotId, sub.signalType, hashDevice(sub.deviceToken), ts, DayOf(ts));
    assert !InCooldown([first][0], sub.spotId, hashDevice(sub.deviceToken), ts - 24 * SecondsPerHour);
    if SameBucket(first, row) {
      SameDayClose(ts, first.timestamp);
    }
    assert !InsertRefused([first], row);
  }

  /** Appending a row the insert does not refuse keeps the signal table consistent. */
  lemma AppendKeepsValid(signals: seq<SignalRow>, spots: map<string, SpotRow>, row: SignalRow)
    requires SignalsValid(signals, spots)
    requires row.signalType in SignalTypes && row.spotId in spots && row.dayBucket == DayOf(row.timestamp)
    requires !InsertRefused(signals, row)
    ensures SignalsValid(signals + [row], spots)
  {
    var all := signals + [row];
    forall i, j | 0 <= i < j < |all| ensures all[i].id != all[j].id && !SameBucket(all[i], all[j]) {
      if j == |signals| {
        assert all[i] == signals[i] && all[j] == row;
      } else {
        assert all[i] == signals[i] && all[j] == signals[j];
      }
    }
  }

  /** The insert of an accepted row. */
  method StoreSignal(db: Database, row: SignalRow)
    requires db.Valid()
    requires row.signalType in SignalTypes && row.spotId in db.spots && row.dayBucket == DayOf(row.timestamp)
    requires !InsertRefused(db.signals, row)
    modifies db
    ensures db.Valid()
    ensures db.signals == old(db.signals) + [row]
    ensures db.spots == old(db.spots) && db.events == old(db.events) && db.sourceState == old(db.sourceState)
    ensures db.pois == old(db.pois) && db.zones == old(db.zones) && db.roads == old(db.roads)
  {
    AppendKeepsValid(db.signals, db.spots, row);
    db.signals := db.signals + [row];
  }

  /** The gate after validation, on the database: the row is inserted exactly
      when `Decide` accepts it. */
  method DecideAndStore(db: Database, sub: Submission, now: int, hashDevice: string -> string, newId: string,
                        cooldownHours: int)
    returns (o: Outcome)
    requires db.Valid() && sub.signalType in SignalTypes
    modifies db
    ensures db.Valid()
    ensures o == Decide(sub, old(db.spots), old(db.signals), hashDevice, now, newId, cooldownHours)
    ensures db.signals == if o.Accepted? then old(db.signals) + [o.row] else old(db.signals)
    ensures db.spots == old(db.spots) && db.events == old(db.events) && db.sourceState == old(db.sourceState)
    ensures db.pois == old(db.pois) && db.zones == old(db.zones) && db.roads == old(db.roads)
  {
    var spots, signals := db.spots, db.signals;
    ghost var decided := Decide(sub, spots, signals, hashDevice, now, newId, cooldownHours);
    var hashed := hashDevice(sub.deviceToken);
    var ts := ClampFuture(sub.timestamp, now);
    var from := ts - cooldownHours * SecondsPerHour;
    if sub.spotId !in spots {
      return Rejected("unknown_spot_id", None);
    }
    var latest := LatestSince(signals, sub.spotId, hashed, from);
    if latest.Some? {
      return Rejected("cooldown_active", Some(latest.value + cooldownHours * SecondsPerHour));
    }
    var row := SignalRow(newId, sub.spotId, sub.signalType, hashed, ts, DayOf(ts));
    if InsertRefused(signals, row) {
      return Rejected("daily_limit", None);
    }
    o := Accepted(row, cooldownHours);
    assert o == decided;
    StoreSignal(db, row);
  }

  /** `handle_signal` on the database. Only the signal table changes, by the
      one accepted row; the tables stay consistent. */
  method HandleSignal(db: Database, body: Option<Json>, conv: Conversions, nowParse: int, now: int,
                      hashDevice: string -> string, newId: string, cooldownHours: int)
    returns (o: Outcome)
    requires db.Valid()
    modifies db
    ensures db.Valid()
    ensures o == SignalOutcome(body, conv, nowParse, now, old(db.spots), old(db.signals), hashDevice, newId, cooldownHours)
    ensures db.signals == if o.Accepted? then old(db.signals) + [o.row] else old(db.signals)
    ensures db.spots == old(db.spots) && db.events == old(db.events) && db.sourceState == old(db.sourceState)
    ensures db.pois == old(db.pois) && db.zones == old(db.zones) && db.roads == old(db.roads)
  {
    var parsed := ParseSubmission(body, conv, nowParse);
    if parsed.Crash? {
      return Crashed;
    }
    if parsed.Invalid? {
      return Rejected(parsed.error, None);
    }
    o := DecideAndStore(db, parsed.sub, now, hashDevice, newId, cooldownHours);
  }
}
