/**
 * The admin side of the backend: the in-memory session table that login
 * fills and every admin request consults, and the validation of an event an
 * admin creates or edits. Session tokens and clock readings are parameters:
 * the token is the random string `secrets.token_urlsafe` would draw, and each
 * separate read of the clock is its own argument.
 */
module Admin {
  import opened Wrappers
  import opened Text
  import opened Json
  import opened Calendar
  import opened Db

  /** `STAYSENSE_ADMIN_SESSION_HOURS` when the variable is unset. */
  const DefaultSessionHours: nat := 12

  /** The source an admin event gets when the payload names none. */
  const ManualSource := "admin_manual"

  const BearerPrefix := "Bearer "

  datatype Session = Session(username: string, expiresAt: int)

  /** What `create_admin_session` hands back to the client. */
  datatype SessionInfo = SessionInfo(token: string, expiresAt: int, sessionHours: int)

  datatype AuthResult = Authorized(username: string) | Denied(error: string)

  /** The sessions that have not expired at `now`: expiry is inclusive, so a
      session whose expiry equals `now` is gone. */
  function Unexpired(m: map<string, Session>, now: int): (r: map<string, Session>)
    ensures r.Keys <= m.Keys
    ensures forall t :: t in r ==> r[t] == m[t] && now < m[t].expiresAt
    ensures forall t :: t in m && now < m[t].expiresAt ==> t in r
  {
    map t | t in m && m[t].expiresAt > now :: m[t]
  }

  /** Cleaning twice at the same instant removes nothing more, and a later
      cleanup subsumes an earlier one. */
  lemma UnexpiredLater(m: map<string, Session>, earlier: int, later: int)
    requires earlier <= later
    ensures Unexpired(Unexpired(m, earlier), later) == Unexpired(m, later)
  {
  }

  /** The token of an `Authorization` header: what follows "Bearer ", with
      surrounding whitespace removed; none without that prefix. */
  function BearerToken(header: string): (r: Option<string>)
    ensures r.Some? <==> StartsWith(header, BearerPrefix)
    ensures r.Some? ==> header == BearerPrefix + header[|BearerPrefix|..] && r.value == Strip(header[|BearerPrefix|..])
  {
    if StartsWith(header, BearerPrefix) then Some(Strip(header[|BearerPrefix|..])) else None
  }

  /** `admin_auth`: the answer and the session table afterwards. Cleanup runs
      at `nowCleanup`; the token's own expiry is checked against a second
      clock reading, `nowCheck`. */
  function AuthDecision(sessions: map<string, Session>, header: string, nowCleanup: int, nowCheck: int)
    : (r: (AuthResult, map<string, Session>))
  {
    var live := Unexpired(sessions, nowCleanup);
    match BearerToken(header)
    case None => (Denied("missing_token"), live)
    case Some(token) =>
      if token !in live then (Denied("invalid_token"), live)
      else if live[token].expiresAt <= nowCheck then (Denied("expired_token"), live - {token})
      else (Authorized(live[token].username), live)
  }

  /** A request is authorised exactly when it carries a bearer token of a
      session that outlives both clock readings, and then as that session's
      user; each refusal names its reason, and the only entries removed are
      those expired at cleanup plus the presented token when it expired
      since. */
  lemma AuthMeaning(sessions: map<string, Session>, header: string, nowCleanup: int, nowCheck: int)
    ensures var (res, after) := AuthDecision(sessions, header, nowCleanup, nowCheck);
            && (res.Authorized? <==>
                  && BearerToken(header).Some?
                  && BearerToken(header).value in sessions
                  && sessions[BearerToken(header).value].expiresAt > nowCleanup
                  && sessions[BearerToken(header).value].expiresAt > nowCheck)
            && (res.Authorized? ==> res.username == sessions[BearerToken(header).value].username)
            && (res == Denied("missing_token") <==> !StartsWith(header, BearerPrefix))
            && (res == Denied("invalid_token") <==>
                  && BearerToken(header).Some?
                  && (BearerToken(header).value !in sessions
                      || sessions[BearerToken(header).value].expiresAt <= nowCleanup))
            && (res.Authorized? || res == Denied("missing_token") || res == Denied("invalid_token")
                || res == Denied("expired_token"))
            && after.Keys <= Unexpired(sessions, nowCleanup).Keys
            && (forall t :: t in after ==> after[t] == sessions[t])
            && (forall t :: t in Unexpired(sessions, nowCleanup) && t !in after ==>
                  res == Denied("expired_token") && t == BearerToken(header).value)
  {
  }

  /** With one clock reading for both steps, `expired_token` never happens:
      cleanup has already dropped every session the check would refuse. */
  lemma NoExpiredTokenWithOneClock(sessions: map<string, Session>, header: string, now: int)
    ensures AuthDecision(sessions, header, now, now).0 != Denied("expired_token")
  {
  }

  /** A fresh session authorises its bearer as its user until it expires. */
  lemma CreatedSessionAuthorizes(sessions: map<string, Session>, username: string, token: string,
                                 created: int, hours: nat, nowCleanup: int, nowCheck: int)
    requires Strip(token) == token
    requires nowCleanup < created + hours * SecondsPerHour && nowCheck < created + hours * SecondsPerHour
    ensures var s := sessions[token := Session(username, created + hours * SecondsPerHour)];
            AuthDecision(s, BearerPrefix + token, nowCleanup, nowCheck) == (Authorized(username), Unexpired(s, nowCleanup))
  {
    assert (BearerPrefix + token)[|BearerPrefix|..] == token;
  }

  /** The token a logout request names: the bearer token, or nothing. */
  function LogoutToken(header: string): (t: string)
    ensures BearerToken(header).Some? ==> t == BearerToken(header).value
    ensures BearerToken(header).None? ==> t == ""
  {
    if StartsWith(header, BearerPrefix) then Strip(header[|BearerPrefix|..]) else ""
  }

  class AdminSessions {
    /** `ADMIN_SESSIONS`: token to session. */
    var sessions: map<string, Session>

    constructor ()
      ensures sessions == map[]
    {
      sessions := map[];
    }

    /** `create_admin_session`: stores a session for `username` under the
        drawn `token`, expiring `sessionHours` after `now`. */
    method CreateSession(username: string, token: string, now: int, sessionHours: int) returns (info: SessionInfo)
      modifies this
      ensures sessions == old(sessions)[token := Session(username, now + sessionHours * SecondsPerHour)]
      ensures info == SessionInfo(token, now + sessionHours * SecondsPerHour, sessionHours)
    {
      var expiresAt := now + sessionHours * SecondsPerHour;
      sessions := sessions[token := Session(username, expiresAt)];
      info := SessionInfo(token, expiresAt, sessionHours);
    }

    /** `cleanup_admin_sessions`: lists the expired tokens, then removes them
        one by one. Exactly the unexpired sessions remain, unchanged. */
    method Cleanup(now: int)
      modifies this
      ensures sessions == Unexpired(old(sessions), now)
    {
      var expired := set t | t in sessions && sessions[t].expiresAt <= now;
      ghost var all := expired;
      while expired != {}
        invariant expired <= all
        invariant sessions == old(sessions) - (all - expired)
        decreases |expired|
      {
        var t :| t in expired;
        sessions := sessions - {t};
        expired := expired - {t};
      }
      ghost var target := Unexpired(old(sessions), now);
      assert forall t :: t in all <==> t in old(sessions) && old(sessions)[t].expiresAt <= now;
      assert forall t :: t in sessions <==> t in old(sessions) && t !in all;
      assert sessions.Keys == target.Keys;
      assert forall t :: t in sessions ==> sessions[t] == target[t];
    }

    /** `admin_auth`. */
    method Auth(header: string, nowCleanup: int, nowCheck: int) returns (r: AuthResult)
      modifies this
      ensures (r, sessions) == AuthDecision(old(sessions), header, nowCleanup, nowCheck)
    {
      Cleanup(nowCleanup);
      if !StartsWith(header, BearerPrefix) {
        return Denied("missing_token");
      }
      var token := Strip(header[|BearerPrefix|..]);
      if token !in sessions {
        return Denied("invalid_token");
      }
      var session := sessions[token];
      if session.expiresAt <= nowCheck {
        sessions := sessions - {token};
        return Denied("expired_token");
      }
      return Authorized(session.username);
    }

    /** `handle_admin_logout`'s table update: the named session, if any, is gone. */
    method Logout(header: string)
      modifies this
      ensures sessions == if LogoutToken(header) != "" then old(sessions) - {LogoutToken(header)} else old(sessions)
    {
      var token := if StartsWith(header, BearerPrefix) then Strip(header[|BearerPrefix|..]) else "";
      if token != "" {
        sessions := sessions - {token};
      }
    }
  }

  /** After logging out, the same header is refused as an unknown token. */
  lemma LogoutThenAuthRefused(sessions: map<string, Session>, header: string, nowCleanup: int, nowCheck: int)
    requires LogoutToken(header) != ""
    ensures AuthDecision(sessions - {LogoutToken(header)}, header, nowCleanup, nowCheck).0 == Denied("invalid_token")
  {
  }

  // ------------------------------------------------------------ admin events

  /** An event as `parse_admin_event` returns it; times are seconds. */
  datatype AdminEvent = AdminEvent(
    eventType: string, lat: real, lon: real, riskModifier: int, start: int, end: int, source: string)

  /** The admin's coordinate box. */
  predicate InAdminBounds(lat: real, lon: real) {
    47.0 <= lat <= 55.5 && 5.0 <= lon <= 16.0
  }

  /** The fields of a payload before validation: `None` for a field whose
      conversion raises. */
  datatype RawEvent = RawEvent(
    eventType: string, lat: Option<real>, lon: Option<real>, risk: Option<int>,
    start: Option<int>, end: Option<int>, source: string)

  /** Reads the fields of an object payload as the `try` block does; a missing
      time is the clock reading of its own `parse_iso8601` call. */
  function ReadEvent(d: map<string, Json>, conv: Conversions, nowStart: int, nowEnd: int): (raw: RawEvent)
    ensures raw.eventType == [] || !IsSpace(raw.eventType[0])
    ensures "start_datetime" !in d ==> raw.start == Some(nowStart)
    ensures "end_datetime" !in d ==> raw.end == Some(nowEnd)
    ensures "lat" !in d ==> raw.lat.None?
  {
    var source := Strip(PyStr(Get(d, "source", JStr(ManualSource)), conv));
    RawEvent(
      Strip(PyStr(Get(d, "event_type", JStr("")), conv)),
      PyFloat(Get(d, "lat", JNull), conv),
      PyFloat(Get(d, "lon", JNull), conv),
      PyInt(Get(d, "risk_modifier", JNull)),
      ParseIso8601(Get(d, "start_datetime", JNull), conv, nowStart),
      ParseIso8601(Get(d, "end_datetime", JNull), conv, nowEnd),
      if source == "" then ManualSource else source)
  }

  predicate Readable(raw: RawEvent) {
    raw.lat.Some? && raw.lon.Some? && raw.risk.Some? && raw.start.Some? && raw.end.Some?
  }

  /** `parse_admin_event`: any field that cannot be read (or a body that is not
      an object) is `invalid_payload`; then, in order, the event type, the
      coordinate box, the time window and the risk range are checked. */
  function ParseAdminEvent(body: Json, conv: Conversions, nowStart: int, nowEnd: int): (r: Result<AdminEvent>)
    ensures r.Ok? ==> && r.value.eventType in EventTypes
                      && InAdminBounds(r.value.lat, r.value.lon)
                      && r.value.start < r.value.end
                      && -50 <= r.value.riskModifier <= 50
                      && r.value.source != ""
    ensures r.Err? ==> r.error in {"invalid_payload", "invalid_event_type", "lat_lon_out_of_bounds",
                                   "invalid_time_window", "invalid_risk_modifier"}
  {
    if !body.JObj? then Err("invalid_payload")
    else
      var raw := ReadEvent(body.fields, conv, nowStart, nowEnd);
      if !Readable(raw) then Err("invalid_payload")
      else if raw.eventType !in EventTypes then Err("invalid_event_type")
      else if !InAdminBounds(raw.lat.value, raw.lon.value) then Err("lat_lon_out_of_bounds")
      else if raw.start.value >= raw.end.value then Err("invalid_time_window")
      else if raw.risk.value < -50 || raw.risk.value > 50 then Err("invalid_risk_modifier")
      else Ok(AdminEvent(raw.eventType, raw.lat.value, raw.lon.value, raw.risk.value,
                         raw.start.value, raw.end.value, raw.source))
  }

  /** Each refusal happens exactly when every earlier check passed and its own
      check fails; an accepted event carries the payload's values. */
  lemma AdminEventOrder(d: map<string, Json>, conv: Conversions, nowStart: int, nowEnd: int)
    ensures var raw := ReadEvent(d, conv, nowStart, nowEnd);
            var r := ParseAdminEvent(JObj(d), conv, nowStart, nowEnd);
            && (r == Err("invalid_payload") <==> !Readable(raw))
            && (r == Err("invalid_event_type") <==> Readable(raw) && raw.eventType !in EventTypes)
            && (r == Err("lat_lon_out_of_bounds") <==>
                  Readable(raw) && raw.eventType in EventTypes && !InAdminBounds(raw.lat.value, raw.lon.value))
            && (r == Err("invalid_time_window") <==>
                  Readable(raw) && raw.eventType in EventTypes && InAdminBounds(raw.lat.value, raw.lon.value)
                  && raw.start.value >= raw.end.value)
            && (r.Ok? <==>
                  Readable(raw) && raw.eventType in EventTypes && InAdminBounds(raw.lat.value, raw.lon.value)
                  && raw.start.value < raw.end.value && -50 <= raw.risk.value <= 50)
            && (r.Ok? ==> r.value == AdminEvent(raw.eventType, raw.lat.value, raw.lon.value, raw.risk.value,
                                                raw.start.value, raw.end.value, raw.source))
  {
  }

  /** A payload without a source, or with a blank one, is attributed to
      "admin_manual"; a given source is kept without its surrounding spaces. */
  lemma AdminEventSource(d: map<string, Json>, conv: Conversions, nowStart: int, nowEnd: int)
    ensures "source" !in d ==> ReadEvent(d, conv, nowStart, nowEnd).source == ManualSource
    ensures "source" in d && d["source"].JStr? && Strip(d["source"].s) != "" ==>
              ReadEvent(d, conv, nowStart, nowEnd).source == Strip(d["source"].s)
  {
    assert Strip(ManualSource) == ManualSource by { StripFixed(ManualSource); }
  }

  /** A payload that leaves out both times is refused as an empty window when
      both clock readings fall in the same second. */
  lemma MissingTimesRefused(d: map<string, Json>, conv: Conversions, now: int)
    requires "start_datetime" !in d && "end_datetime" !in d
    requires ReadEvent(d, conv, now, now).eventType in EventTypes
    ensures ParseAdminEvent(JObj(d), conv, now, now).Err?
  {
    AdminEventOrder(d, conv, now, now);
  }
}
