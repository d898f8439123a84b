/**
 * Time as the program uses it. An instant is a whole number of seconds since
 * 1970-01-01T00:00:00Z (every timestamp the program compares is UTC); a
 * calendar date is a `Date` or its day number since 1970-01-01 in the
 * proleptic Gregorian calendar. Dafny's `/` and `%` are Euclidean, so for a
 * positive divisor they floor, as Python's `datetime` does before 1970.
 */
module Calendar {
  import opened Wrappers
  import opened Text

  const SecondsPerHour := 3600
  const SecondsPerDay := 86400

  datatype Date = Date(year: int, month: int, day: int)

  predicate IsLeapYear(y: int) {
    y % 4 == 0 && (y % 100 != 0 || y % 400 == 0)
  }

  function DaysInMonth(y: int, m: int): int
    requires 1 <= m <= 12
  {
    if m == 2 then (if IsLeapYear(y) then 29 else 28)
    else if m == 4 || m == 6 || m == 9 || m == 11 then 30
    else 31
  }

  /** The dates Python's `datetime.date` can hold. */
  predicate ValidDate(d: Date) {
    1 <= d.year <= 9999 && 1 <= d.month <= 12 && 1 <= d.day <= DaysInMonth(d.year, d.month)
  }

  /** Days from 1970-01-01 to `d`: the civil-to-days conversion of the
      proleptic Gregorian calendar (March-based years, 400-year eras). */
  function EpochDay(d: Date): int
  {
    var y := if d.month <= 2 then d.year - 1 else d.year;
    var era := y / 400;
    var yoe := y - era * 400;
    var mp := if d.month > 2 then d.month - 3 else d.month + 9;
    var doy := (153 * mp + 2) / 5 + d.day - 1;
    var doe := yoe * 365 + yoe / 4 - yoe / 100 + doy;
    era * 146097 + doe - 719468
  }

  /** The day number of the UTC date an instant falls on (`dt.date()`). */
  function DayOf(t: int): int {
    t / SecondsPerDay
  }

  /** The UTC hour of an instant (`dt.hour`). */
  function HourOf(t: int): (h: int)
    ensures 0 <= h < 24
  {
    (t % SecondsPerDay) / SecondsPerHour
  }

  /** Python's `date.weekday()` of a day number: Monday is 0; 1970-01-01 was a Thursday. */
  function Weekday(day: int): (w: int)
    ensures 0 <= w < 7
  {
    (day + 3) % 7
  }

  /** An instant splits into its day and the seconds since that day's midnight. */
  lemma InstantSplit(t: int)
    ensures t == DayOf(t) * SecondsPerDay + t % SecondsPerDay
    ensures 0 <= t % SecondsPerDay < SecondsPerDay
    ensures HourOf(t) * SecondsPerHour <= t % SecondsPerDay < (HourOf(t) + 1) * SecondsPerHour
  {
  }

  lemma EpochDayReference()
    ensures EpochDay(Date(1970, 1, 1)) == 0
    ensures EpochDay(Date(2026, 1, 1)) == 20454 && Weekday(20454) == 3
  {
    assert (153 * 10 + 2) / 5 == 306;
    assert 1969 / 400 == 4 && 369 / 4 == 92 && 369 / 100 == 3;
    assert 2025 / 400 == 5 && 25 / 4 == 6 && 25 / 100 == 0;
  }

  // ------------------------------------------------------------ ISO text

  /** `n` as exactly `width` decimal digits, zero-padded (`%02d`, `%04d`). */
  function Padded(n: nat, width: nat): (r: string)
    ensures |r| == width && AllDigits(r)
  {
    if width == 0 then "" else Padded(n / 10, width - 1) + [DigitChar(n % 10)]
  }

  lemma {:induction false} PaddedValue(n: nat, width: nat)
    ensures DigitsValue(Padded(n, width)) == n % Pow10(width)
  {
    if width > 0 {
      var r := Padded(n, width);
      assert r[..|r| - 1] == Padded(n / 10, width - 1);
      PaddedValue(n / 10, width - 1);
      DivModPow10(n, width - 1);
    }
  }

  function Pow10(k: nat): (p: nat)
    ensures p >= 1
  {
    if k == 0 then 1 else 10 * Pow10(k - 1)
  }

  /** Euclidean division is unique: a quotient and remainder in range are the ones. */
  lemma ModUnique(n: int, m: int, q: int, r: int)
    requires m > 0 && 0 <= r < m && n == q * m + r
    ensures n % m == r && n / m == q
  {
    var q', r' := n / m, n % m;
    assert q * m + r == q' * m + r';
    if q' < q {
      MulStep(q - q' - 1, m);
    } else if q' > q {
      MulStep(q' - q - 1, m);
    }
  }

  lemma MulStep(a: nat, m: int)
    requires m > 0
    ensures a * m >= 0
  {
  }

  lemma DivModPow10(n: nat, k: nat)
    ensures 10 * ((n / 10) % Pow10(k)) + n % 10 == n % Pow10(k + 1)
  {
    var p := Pow10(k);
    var q := (n / 10) / p;
    var r := (n / 10) % p;
    assert n / 10 == q * p + r;
    assert n == q * (10 * p) + (10 * r + n % 10);
    ModUnique(n, 10 * p, q, 10 * r + n % 10);
  }

  /** `date.isoformat()`: `YYYY-MM-DD`. */
  function IsoDate(d: Date): (s: string)
    requires ValidDate(d)
    ensures |s| == 10
  {
    Padded(d.year, 4) + "-" + Padded(d.month, 2) + "-" + Padded(d.day, 2)
  }

  /** `date.fromisoformat(text)` for the `YYYY-MM-DD` form: four, two and two
      ASCII digits separated by `-`, naming a date that exists. */
  function ParseIsoDate(s: string): (r: Option<Date>)
    ensures r.Some? ==> ValidDate(r.value) && |s| == 10
    ensures r.Some? ==> s == IsoDate(r.value)
  {
    if |s| != 10 || s[4] != '-' || s[7] != '-' then None
    else if !AllDigits(s[..4]) || !AllDigits(s[5..7]) || !AllDigits(s[8..]) then None
    else
      var d := Date(DigitsValue(s[..4]), DigitsValue(s[5..7]), DigitsValue(s[8..]));
      if ValidDate(d) then
        IsoDateOfFields(s, d);
        Some(d)
      else None
  }

  /** Text that passed the field checks is the ISO text of the date it names:
      no other spelling of a date is accepted. */
  lemma IsoDateOfFields(s: string, d: Date)
    requires |s| == 10 && s[4] == '-' && s[7] == '-'
    requires AllDigits(s[..4]) && AllDigits(s[5..7]) && AllDigits(s[8..])
    requires d == Date(DigitsValue(s[..4]), DigitsValue(s[5..7]), DigitsValue(s[8..]))
    requires ValidDate(d)
    ensures s == IsoDate(d)
  {
    PaddedOfDigits(s[..4]);
    PaddedOfDigits(s[5..7]);
    PaddedOfDigits(s[8..]);
    assert s == s[..4] + "-" + s[5..7] + "-" + s[8..];
  }

  /** Zero-padding the value of a digit string to its own width gives it back. */
  lemma {:induction false} PaddedOfDigits(s: string)
    requires AllDigits(s)
    ensures Padded(DigitsValue(s), |s|) == s
  {
    if s != [] {
      var init, last := s[..|s| - 1], s[|s| - 1];
      var v := DigitsValue(s);
      assert v == 10 * DigitsValue(init) + DigitValue(last);
      assert v / 10 == DigitsValue(init) && v % 10 == DigitValue(last);
      PaddedOfDigits(init);
      assert DigitChar(DigitValue(last)) == last;
      assert s == init + [last];
    }
  }

  /** `date.fromisoformat(d.isoformat()) == d`. */
  lemma IsoDateRoundTrip(d: Date)
    requires ValidDate(d)
    ensures ParseIsoDate(IsoDate(d)) == Some(d)
  {
    var ys, ms, ds := Padded(d.year, 4), Padded(d.month, 2), Padded(d.day, 2);
    PaddedExact(d.year, 4);
    PaddedExact(d.month, 2);
    PaddedExact(d.day, 2);
    var s := IsoDate(d);
    assert s == ys + "-" + ms + "-" + ds;
    assert s[..4] == ys && s[5..7] == ms && s[8..] == ds;
  }

  lemma PaddedExact(n: nat, width: nat)
    requires n < Pow10(width)
    ensures DigitsValue(Padded(n, width)) == n
  {
    PaddedValue(n, width);
  }
}
