/** Proleptic Gregorian civil dates and times as Python's `datetime` module
    keeps them (years 1 to 9999), the GitLab `closed_at` timestamp format
    `YYYY-MM-DD HH:MM:SS UTC`, and the conversion of a UTC time to the civil
    date it falls on in UTC+9. */
module CivilDate {
  import opened Wrappers
  import opened Decimal

  const MinYear := 1
  const MaxYear := 9999

  datatype Date = Date(year: int, month: int, day: int)
  datatype Timestamp = Timestamp(date: Date, hour: int, minute: int, second: int)

  predicate IsLeapYear(y: int) {
    y % 4 == 0 && (y % 100 != 0 || y % 400 == 0)
  }

  function DaysInMonth(y: int, m: int): int
    requires 1 <= m <= 12
  {
    if m == 2 then (if IsLeapYear(y) then 29 else 28)
    else if m == 4 || m == 6 || m == 9 || m == 11 then 30
    else 31
  }

  function DaysInYear(y: int): int {
    if IsLeapYear(y) then 366 else 365
  }

  /** The dates `datetime.date` accepts. */
  predicate ValidDate(d: Date) {
    MinYear <= d.year <= MaxYear && 1 <= d.month <= 12 && 1 <= d.day <= DaysInMonth(d.year, d.month)
  }

  /** The times `datetime.datetime` accepts (no leap second). */
  predicate ValidTimestamp(t: Timestamp) {
    ValidDate(t.date) && 0 <= t.hour < 24 && 0 <= t.minute < 60 && 0 <= t.second < 60
  }

  // ---------------------------------------------------------------------------
  // Day numbers: the independent reference for calendar arithmetic.

  /** Days in the years before `y`, counted from 0001-01-01 by the Gregorian
      leap rule in closed form. */
  function DaysBeforeYear(y: int): int
    requires y >= 1
  {
    var p := y - 1;
    p * 365 + p / 4 - p / 100 + p / 400
  }

  /** Days in the months of year `y` before month `m`, from the table of
      cumulative month lengths. */
  function DaysBeforeMonth(y: int, m: int): int
    requires 1 <= m <= 12
  {
    var common :=
      if m == 1 then 0 else if m == 2 then 31 else if m == 3 then 59
      else if m == 4 then 90 else if m == 5 then 120 else if m == 6 then 151
      else if m == 7 then 181 else if m == 8 then 212 else if m == 9 then 243
      else if m == 10 then 273 else if m == 11 then 304 else 334;
    if m > 2 && IsLeapYear(y) then common + 1 else common
  }

  /** The proleptic Gregorian ordinal of a date: 0001-01-01 is day 1 (Python's
      `date.toordinal`). */
  function Ordinal(d: Date): int
    requires ValidDate(d)
  {
    DaysBeforeYear(d.year) + DaysBeforeMonth(d.year, d.month) + d.day
  }

  lemma DivStep4(y: int)
    requires y >= 1
    ensures y / 4 - (y - 1) / 4 == if y % 4 == 0 then 1 else 0
  {
  }

  lemma DivStep100(y: int)
    requires y >= 1
    ensures y / 100 - (y - 1) / 100 == if y % 100 == 0 then 1 else 0
  {
  }

  lemma DivStep400(y: int)
    requires y >= 1
    ensures y / 400 - (y - 1) / 400 == if y % 400 == 0 then 1 else 0
  {
  }

  lemma YearLength(y: int)
    requires y >= 1
    ensures DaysBeforeYear(y + 1) == DaysBeforeYear(y) + DaysInYear(y)
  {
    var p := y - 1;
    assert DaysBeforeYear(y + 1) == p * 365 + 365 + y / 4 - y / 100 + y / 400;
    assert DaysBeforeYear(y) == p * 365 + p / 4 - p / 100 + p / 400;
    DivStep4(y);
    DivStep100(y);
    DivStep400(y);
    if y % 4 != 0 {
      assert !IsLeapYear(y);
    } else if y % 100 != 0 {
      assert IsLeapYear(y);
    } else if y % 400 != 0 {
      assert !IsLeapYear(y);
    } else {
      assert IsLeapYear(y);
    }
  }

  lemma MonthLength(y: int, m: int)
    requires 1 <= m < 12
    ensures DaysBeforeMonth(y, m + 1) == DaysBeforeMonth(y, m) + DaysInMonth(y, m)
  {
  }

  // ---------------------------------------------------------------------------
  // Calendar arithmetic.

  /** The following calendar day, with month and year rollover; None past
      9999-12-31, where Python's `datetime` raises OverflowError. */
  function NextDay(d: Date): (r: Option<Date>)
    requires ValidDate(d)
  {
    if d.day < DaysInMonth(d.year, d.month) then Some(Date(d.year, d.month, d.day + 1))
    else if d.month < 12 then Some(Date(d.year, d.month + 1, 1))
    else if d.year < MaxYear then Some(Date(d.year + 1, 1, 1))
    else None
  }

  lemma {:induction false} NextDayIsNextOrdinal(d: Date)
    requires ValidDate(d)
    ensures NextDay(d).None? <==> d == Date(MaxYear, 12, 31)
    ensures NextDay(d).Some? ==> ValidDate(NextDay(d).value) && Ordinal(NextDay(d).value) == Ordinal(d) + 1
  {
    if d.day < DaysInMonth(d.year, d.month) {
    } else if d.month < 12 {
      MonthLength(d.year, d.month);
    } else if d.year < MaxYear {
      YearLength(d.year);
    }
  }

  /** Why a UTC time has no UTC+9 date in Python's `datetime`. */
  datatype ZoneError =
    | ProbeBeforeYear1  // ValueError: the local-offset probe one day earlier leaves year 1
    | PastYear9999      // OverflowError: the UTC+9 date is past 9999-12-31

  /** `dt.astimezone(timezone(timedelta(hours=9))).date()` for a naive time
      `t` in a UTC host zone. `astimezone` first works out the host's offset
      for `t`, probing the offset one day earlier; on 0001-01-01 that probe
      lies in year 0 and raises. The UTC+9 date may also pass year 9999. */
  function DateInUtcPlus9(t: Timestamp): Result<Date, ZoneError>
    requires ValidTimestamp(t)
  {
    if t.date == Date(MinYear, 1, 1) then Failure(ProbeBeforeYear1)
    else if t.hour + 9 < 24 then Success(t.date)
    else
      match NextDay(t.date)
      case None => Failure(PastYear9999)
      case Some(d) => Success(d)
  }

  /** The UTC+9 date is the day that holds the instant nine hours after `t`:
      the next calendar day exactly when the UTC hour is 15 or later. It
      exists for every time except those on 0001-01-01 and the last nine
      hours of 9999-12-31. */
  lemma {:induction false} DateInUtcPlus9Correct(t: Timestamp)
    requires ValidTimestamp(t)
    ensures DateInUtcPlus9(t) == Failure(ProbeBeforeYear1) <==> t.date == Date(MinYear, 1, 1)
    ensures DateInUtcPlus9(t) == Failure(PastYear9999) <==> t.date == Date(MaxYear, 12, 31) && t.hour >= 15
    ensures DateInUtcPlus9(t).Success? ==>
      var d := DateInUtcPlus9(t).value;
      && ValidDate(d)
      && Ordinal(d) == Ordinal(t.date) + (if t.hour >= 15 then 1 else 0)
      && Ordinal(d) == (Ordinal(t.date) * 24 + t.hour + 9) / 24
  {
    NextDayIsNextOrdinal(t.date);
  }

  /** Days are numbered without gaps or repeats: the ordinal determines the date. */
  lemma {:induction false} OrdinalInjective(a: Date, b: Date)
    requires ValidDate(a) && ValidDate(b) && Ordinal(a) == Ordinal(b)
    ensures a == b
  {
    if a.year != b.year {
      var (lo, hi) := if a.year < b.year then (a, b) else (b, a);
      OrdinalBounds(lo);
      OrdinalBounds(hi);
      YearLength(lo.year);
      DaysBeforeYearMonotone(lo.year + 1, hi.year);
      assert false;
    } else if a.month != b.month {
      var (lo, hi) := if a.month < b.month then (a, b) else (b, a);
      MonthLength(lo.year, lo.month);
      DaysBeforeMonthMonotone(lo.year, lo.month + 1, hi.month);
      assert false;
    }
  }

  /** A date's ordinal lies within its year. */
  lemma OrdinalBounds(d: Date)
    requires ValidDate(d)
    ensures DaysBeforeYear(d.year) < Ordinal(d) <= DaysBeforeYear(d.year) + DaysInYear(d.year)
  {
    if d.month < 12 {
      DaysBeforeMonthMonotone(d.year, d.month + 1, 12);
      MonthLength(d.year, d.month);
    }
  }

  lemma {:induction false} DaysBeforeYearMonotone(a: int, b: int)
    requires 1 <= a <= b
    ensures DaysBeforeYear(a) <= DaysBeforeYear(b)
    decreases b - a
  {
    if a < b {
      YearLength(a);
      DaysBeforeYearMonotone(a + 1, b);
    }
  }

  lemma DaysBeforeMonthMonotone(y: int, a: int, b: int)
    requires 1 <= a <= b <= 12
    ensures DaysBeforeMonth(y, a) <= DaysBeforeMonth(y, b)
  {
  }

  // ---------------------------------------------------------------------------
  // Text forms.

  /** `date.isoformat()`: `YYYY-MM-DD`, zero-padded. */
  function IsoDate(d: Date): (r: string)
    requires ValidDate(d)
    ensures |r| == 10
  {
    Padded(d.year, 4) + "-" + Padded(d.month, 2) + "-" + Padded(d.day, 2)
  }

  /** The GitLab webhook form of a UTC time, `YYYY-MM-DD HH:MM:SS UTC`. */
  function TimestampText(t: Timestamp): (r: string)
    requires ValidTimestamp(t)
    ensures |r| == 23
  {
    IsoDate(t.date) + " " + Padded(t.hour, 2) + ":" + Padded(t.minute, 2) + ":" + Padded(t.second, 2) + " UTC"
  }

  /** Reads exactly `n` digits at the front of `s`. */
  function TakeDigits(s: string, n: nat): (r: Option<(nat, string)>)
    ensures r.Some? ==> n <= |s| && r.value.1 == s[n..] && AllDigits(s[..n]) && r.value.0 == Value(s[..n])
  {
    if n <= |s| && AllDigits(s[..n]) then Some((Value(s[..n]), s[n..])) else None
  }

  /** Reads the literal `lit` at the front of `s`. */
  function Expect(s: string, lit: string): (r: Option<string>)
    ensures r.Some? ==> s == lit + r.value
  {
    if |lit| <= |s| && s[..|lit|] == lit then Some(s[|lit|..]) else None
  }

  /** Reads `YYYY-MM-DD` at the front of `s`, before any range check. */
  function DateFields(s: string): Option<(Date, string)> {
    var y :- TakeDigits(s, 4);
    var s1 :- Expect(y.1, "-");
    var mo :- TakeDigits(s1, 2);
    var s2 :- Expect(mo.1, "-");
    var d :- TakeDigits(s2, 2);
    Some((Date(y.0, mo.0, d.0), d.1))
  }

  /** Reads `HH:MM:SS UTC` as the whole of `s`, before any range check. */
  function ClockFields(s: string): Option<(nat, nat, nat)> {
    var h :- TakeDigits(s, 2);
    var s4 :- Expect(h.1, ":");
    var mi :- TakeDigits(s4, 2);
    var s5 :- Expect(mi.1, ":");
    var se :- TakeDigits(s5, 2);
    var s6 :- Expect(se.1, " UTC");
    if s6 == [] then Some((h.0, mi.0, se.0)) else None
  }

  /** The fields of `YYYY-MM-DD HH:MM:SS UTC`, before any range check. */
  function TimestampFields(s: string): Option<Timestamp> {
    var date :- DateFields(s);
    var s3 :- Expect(date.1, " ");
    var clock :- ClockFields(s3);
    Some(Timestamp(date.0, clock.0, clock.1, clock.2))
  }

  /** `datetime.strptime(s, "%Y-%m-%d %H:%M:%S %Z")` for the GitLab form: None
      (Python's ValueError) unless `s` is that form and names a real time. */
  function ParseTimestamp(s: string): (r: Option<Timestamp>)
    ensures r.Some? ==> ValidTimestamp(r.value)
  {
    var t :- TimestampFields(s);
    if ValidTimestamp(t) then Some(t) else None
  }

  // ---------------------------------------------------------------------------
  // The text forms and their parsers agree.

  lemma TakePadded(n: nat, w: nat, rest: string)
    requires n < Pow10(w)
    ensures TakeDigits(Padded(n, w) + rest, w) == Some((n, rest))
  {
    var s := Padded(n, w) + rest;
    assert s[..w] == Padded(n, w);
    assert s[w..] == rest;
  }

  lemma ExpectLiteral(lit: string, rest: string)
    ensures Expect(lit + rest, lit) == Some(rest)
  {
    assert (lit + rest)[..|lit|] == lit;
    assert (lit + rest)[|lit|..] == rest;
  }

  /** A string of digits is the zero-padded form of its own value. */
  lemma {:induction false} PaddedValue(s: string)
    requires AllDigits(s)
    ensures Value(s) < Pow10(|s|) && Padded(Value(s), |s|) == s
  {
    if s != [] {
      var init := s[..|s| - 1];
      PaddedValue(init);
      var last := DigitValue(s[|s| - 1]);
      assert Value(s) / 10 == Value(init) && Value(s) % 10 == last;
      assert DigitChar(last) == s[|s| - 1];
      assert s == init + [s[|s| - 1]];
    }
  }

  /** `date.isoformat()` can be read back: the text names exactly its date. */
  lemma {:induction false} IsoDateReadsBack(d: Date, rest: string)
    requires ValidDate(d)
    ensures DateFields(IsoDate(d) + rest) == Some((d, rest))
  {
    var y, m, dd := Padded(d.year, 4), Padded(d.month, 2), Padded(d.day, 2);
    assert IsoDate(d) + rest == y + ("-" + (m + ("-" + (dd + rest))));
    TakePadded(d.year, 4, "-" + (m + ("-" + (dd + rest))));
    ExpectLiteral("-", m + ("-" + (dd + rest)));
    TakePadded(d.month, 2, "-" + (dd + rest));
    ExpectLiteral("-", dd + rest);
    TakePadded(d.day, 2, rest);
  }

  /** Every valid time written in the GitLab form parses back to itself. */
  lemma {:induction false} TimestampReadsBack(t: Timestamp)
    requires ValidTimestamp(t)
    ensures ParseTimestamp(TimestampText(t)) == Some(t)
  {
    var h, mi, se := Padded(t.hour, 2), Padded(t.minute, 2), Padded(t.second, 2);
    var tail := " " + (h + (":" + (mi + (":" + (se + " UTC")))));
    assert TimestampText(t) == IsoDate(t.date) + tail;
    IsoDateReadsBack(t.date, tail);
    ExpectLiteral(" ", h + (":" + (mi + (":" + (se + " UTC")))));
    TakePadded(t.hour, 2, ":" + (mi + (":" + (se + " UTC"))));
    ExpectLiteral(":", mi + (":" + (se + " UTC")));
    TakePadded(t.minute, 2, ":" + (se + " UTC"));
    ExpectLiteral(":", se + " UTC");
    TakePadded(t.second, 2, " UTC");
    ExpectLiteral(" UTC", []);
    assert " UTC" + [] == " UTC";
  }

  lemma TakeDigitsCanonical(s: string, n: nat)
    requires TakeDigits(s, n).Some?
    ensures TakeDigits(s, n).value.0 < Pow10(n)
    ensures s == Padded(TakeDigits(s, n).value.0, n) + TakeDigits(s, n).value.1
  {
    PaddedValue(s[..n]);
    assert s == s[..n] + s[n..];
  }

  lemma {:induction false} DateFieldsCanonical(s: string)
    requires DateFields(s).Some? && ValidDate(DateFields(s).value.0)
    ensures s == IsoDate(DateFields(s).value.0) + DateFields(s).value.1
  {
    var y := TakeDigits(s, 4).value;
    var s1 := Expect(y.1, "-").value;
    var mo := TakeDigits(s1, 2).value;
    var s2 := Expect(mo.1, "-").value;
    var d := TakeDigits(s2, 2).value;
    TakeDigitsCanonical(s, 4);
    TakeDigitsCanonical(s1, 2);
    TakeDigitsCanonical(s2, 2);
    assert s == Padded(y.0, 4) + ("-" + (Padded(mo.0, 2) + ("-" + (Padded(d.0, 2) + d.1))));
  }

  /** `n` digits followed by the literal `lit` at the front of `s`. */
  lemma DigitsThenLiteral(s: string, n: nat, lit: string)
    requires TakeDigits(s, n).Some? && Expect(TakeDigits(s, n).value.1, lit).Some?
    ensures TakeDigits(s, n).value.0 < Pow10(n)
    ensures s == Padded(TakeDigits(s, n).value.0, n) + (lit + Expect(TakeDigits(s, n).value.1, lit).value)
  {
    TakeDigitsCanonical(s, n);
  }

  lemma ClockFieldsCanonical(s: string)
    requires ClockFields(s).Some?
    ensures var (h, mi, se) := ClockFields(s).value;
      h < 100 && mi < 100 && se < 100 &&
      s == Padded(h, 2) + (":" + (Padded(mi, 2) + (":" + (Padded(se, 2) + " UTC"))))
  {
    var h := TakeDigits(s, 2).value;
    var s4 := Expect(h.1, ":").value;
    var mi := TakeDigits(s4, 2).value;
    var s5 := Expect(mi.1, ":").value;
    var se := TakeDigits(s5, 2).value;
    DigitsThenLiteral(s, 2, ":");
    DigitsThenLiteral(s4, 2, ":");
    DigitsThenLiteral(s5, 2, " UTC");
    assert Expect(se.1, " UTC").value == [];
    assert s5 == Padded(se.0, 2) + " UTC";
  }

  /** TimestampText with its concatenations grouped to the right. */
  lemma TextGrouped(t: Timestamp)
    requires ValidTimestamp(t)
    ensures TimestampText(t) == IsoDate(t.date) + (" " + (Padded(t.hour, 2) + (":" + (Padded(t.minute, 2) + (":" + (Padded(t.second, 2) + " UTC"))))))
  {
  }

  /** The parser accepts nothing but the GitLab form of a valid time: together
      with TimestampReadsBack, ParseTimestamp and TimestampText are inverse. */
  lemma ParsedIsCanonical(s: string)
    requires ParseTimestamp(s).Some?
    ensures TimestampText(ParseTimestamp(s).value) == s
  {
    var t := ParseTimestamp(s).value;
    var date := DateFields(s).value;
    var s3 := Expect(date.1, " ").value;
    DateFieldsCanonical(s);
    ClockFieldsCanonical(s3);
    TextGrouped(t);
  }
}
