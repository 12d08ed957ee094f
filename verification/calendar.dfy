/** Proleptic Gregorian dates and times as Python's `datetime` and pandas'
    `Timestamp` see them, with the two renderings the scripts use:
    `datetime.isoformat()` and `strftime('%Y-%m-%d')`. */
module Calendar {
  import opened Maybe
  import opened Text
  import opened Numbers

  datatype Date = Date(year: int, month: int, day: int)

  datatype DateTime = DateTime(date: Date, hour: int, minute: int, second: int)

  predicate IsLeap(y: int) {
    y % 4 == 0 && (y % 100 != 0 || y % 400 == 0)
  }

  function DaysInMonth(y: int, m: int): (n: int)
    requires 1 <= m <= 12
    ensures 28 <= n <= 31
  {
    if m == 2 then (if IsLeap(y) then 29 else 28)
    else if m == 4 || m == 6 || m == 9 || m == 11 then 30
    else 31
  }

  /** A date `datetime.date` accepts: years 1 to 9999 and a day that exists
      in its month. */
  predicate ValidDate(d: Date) {
    1 <= d.year <= 9999 && 1 <= d.month <= 12 && 1 <= d.day <= DaysInMonth(d.year, d.month)
  }

  predicate ValidTime(t: DateTime) {
    0 <= t.hour < 24 && 0 <= t.minute < 60 && 0 <= t.second < 60
  }

  predicate ValidDateTime(t: DateTime) {
    ValidDate(t.date) && ValidTime(t)
  }

  function Midnight(d: Date): DateTime {
    DateTime(d, 0, 0, 0)
  }

  /** Chronological order of dates. */
  predicate DateBefore(a: Date, b: Date) {
    || a.year < b.year
    || (a.year == b.year && a.month < b.month)
    || (a.year == b.year && a.month == b.month && a.day < b.day)
  }

  /** Chronological order of date-times at second granularity. */
  predicate TimeBefore(a: DateTime, b: DateTime) {
    || DateBefore(a.date, b.date)
    || (a.date == b.date && a.hour < b.hour)
    || (a.date == b.date && a.hour == b.hour && a.minute < b.minute)
    || (a.date == b.date && a.hour == b.hour && a.minute == b.minute && a.second < b.second)
  }

  /** The first and last whole seconds a nanosecond-resolution pandas
      `Timestamp` can hold (its range is 1677-09-21 00:12:43.145224193 to
      2262-04-11 23:47:16.854775807). */
  const FirstTimestamp := DateTime(Date(1677, 9, 21), 0, 12, 44)
  const LastTimestamp := DateTime(Date(2262, 4, 11), 23, 47, 16)

  predicate InTimestampRange(t: DateTime) {
    !TimeBefore(t, FirstTimestamp) && !TimeBefore(LastTimestamp, t)
  }

  /** The two decimal digits of `n`, zero-padded (`%02d`). */
  function TwoDigits(n: nat): (r: string)
    requires n < 100
    ensures |r| == 2 && IsDigit(r[0]) && IsDigit(r[1])
    ensures DigitValue(r[0]) * 10 + DigitValue(r[1]) == n
  {
    [DigitChar(n / 10), DigitChar(n % 10)]
  }

  /** The four decimal digits of `n`, zero-padded (`%04d`). */
  function FourDigits(n: nat): (r: string)
    requires n < 10000
    ensures |r| == 4 && forall i :: 0 <= i < 4 ==> IsDigit(r[i])
  {
    TwoDigits(n / 100) + TwoDigits(n % 100)
  }

  /** `strftime('%Y-%m-%d')`: the year in four digits, month and day in two. */
  function DateString(d: Date): (r: string)
    requires ValidDate(d)
    ensures |r| == 10
  {
    FourDigits(d.year) + "-" + TwoDigits(d.month) + "-" + TwoDigits(d.day)
  }

  /** `datetime.isoformat()` for a value without microseconds or time zone. */
  function IsoString(t: DateTime): (r: string)
    requires ValidDateTime(t)
    ensures |r| == 19 && r[..10] == DateString(t.date)
  {
    DateString(t.date) + "T" + TwoDigits(t.hour) + ":" + TwoDigits(t.minute) + ":" + TwoDigits(t.second)
  }

  /** A two-digit field at `s[i..i + 2]`. */
  function Two(s: string, i: nat): nat
    requires i + 2 <= |s| && IsDigit(s[i]) && IsDigit(s[i + 1])
  {
    DigitValue(s[i]) * 10 + DigitValue(s[i + 1])
  }

  /** A four-digit field at `s[i..i + 4]`. */
  function Four(s: string, i: nat): nat
    requires i + 4 <= |s| && forall k :: i <= k < i + 4 ==> IsDigit(s[k])
  {
    Two(s, i) * 100 + Two(s, i + 2)
  }

  predicate IsSeparatorPosition(i: int) {
    i == 4 || i == 7 || i == 10 || i == 13 || i == 16
  }

  /** The shape `DDDD-DD-DDTDD:DD:DD` of `%Y-%m-%dT%H:%M:%S` for text the
      scripts write: every field at its full width. */
  predicate TimestampShape(s: string) {
    && |s| == 19
    && s[4] == '-' && s[7] == '-' && s[10] == 'T' && s[13] == ':' && s[16] == ':'
    && forall i :: 0 <= i < 19 && !IsSeparatorPosition(i) ==> IsDigit(s[i])
  }

  function ShapeFields(s: string): (t: DateTime)
    requires TimestampShape(s)
  {
    DateTime(Date(Four(s, 0), Two(s, 5), Two(s, 8)), Two(s, 11), Two(s, 14), Two(s, 17))
  }

  /** `pd.to_datetime(s, format='%Y-%m-%dT%H:%M:%S', errors='coerce')` on one
      string: `None` stands for `NaT`, which is what a string of another
      shape, an impossible date or time, or a moment outside the
      `Timestamp` range becomes. */
  function ParseTimestamp(s: string): (r: Option<DateTime>)
    ensures r.Some? ==> ValidDateTime(r.value) && InTimestampRange(r.value)
  {
    if !TimestampShape(s) then None
    else
      var t := ShapeFields(s);
      if ValidDateTime(t) && InTimestampRange(t) then Some(t) else None
  }

  /** Each character of an `isoformat()` string, field by field. */
  lemma IsoStringChars(t: DateTime)
    requires ValidDateTime(t)
    ensures var s := IsoString(t);
      && s[..2] == TwoDigits(t.date.year / 100) && s[2..4] == TwoDigits(t.date.year % 100)
      && s[4] == '-' && s[5..7] == TwoDigits(t.date.month) && s[7] == '-' && s[8..10] == TwoDigits(t.date.day)
      && s[10] == 'T' && s[11..13] == TwoDigits(t.hour) && s[13] == ':' && s[14..16] == TwoDigits(t.minute)
      && s[16] == ':' && s[17..] == TwoDigits(t.second)
  {
    var y := t.date.year;
    assert IsoString(t) == TwoDigits(y / 100) + TwoDigits(y % 100) + ['-'] + TwoDigits(t.date.month) + ['-'] + TwoDigits(t.date.day)
      + ['T'] + TwoDigits(t.hour) + [':'] + TwoDigits(t.minute) + [':'] + TwoDigits(t.second);
    FieldLayout(TwoDigits(y / 100), TwoDigits(y % 100), TwoDigits(t.date.month), TwoDigits(t.date.day),
      TwoDigits(t.hour), TwoDigits(t.minute), TwoDigits(t.second), '-', '-', 'T', ':', ':');
  }

  /** Where each two-character field and each separator of a timestamp sits. */
  lemma FieldLayout(a: string, b: string, c: string, d: string, e: string, f: string, g: string,
                    x: char, y: char, z: char, w: char, v: char)
    requires |a| == 2 && |b| == 2 && |c| == 2 && |d| == 2 && |e| == 2 && |f| == 2 && |g| == 2
    ensures var s := a + b + [x] + c + [y] + d + [z] + e + [w] + f + [v] + g;
      && s[..2] == a && s[2..4] == b && s[4] == x && s[5..7] == c && s[7] == y && s[8..10] == d
      && s[10] == z && s[11..13] == e && s[13] == w && s[14..16] == f && s[16] == v && s[17..] == g
  {
    var p := a + b + [x] + c + [y] + d;
    var q := [z] + e + [w] + f + [v] + g;
    assert a + b + [x] + c + [y] + d + [z] + e + [w] + f + [v] + g == p + q;
    assert p[..2] == a && p[2..4] == b && p[4] == x && p[5..7] == c && p[7] == y && p[8..10] == d;
    assert q[0] == z && q[1..3] == e && q[3] == w && q[4..6] == f && q[6] == v && q[7..] == g;
  }

  lemma TwoOfDigits(s: string, i: nat, n: nat)
    requires n < 100 && i + 2 <= |s| && s[i..i + 2] == TwoDigits(n)
    ensures IsDigit(s[i]) && IsDigit(s[i + 1]) && Two(s, i) == n
  {
    assert s[i] == s[i..i + 2][0] && s[i + 1] == s[i..i + 2][1];
  }

  lemma IsoStringFields(t: DateTime)
    requires ValidDateTime(t)
    ensures TimestampShape(IsoString(t))
    ensures ShapeFields(IsoString(t)) == t
  {
    var s := IsoString(t);
    IsoStringChars(t);
    TwoOfDigits(s, 0, t.date.year / 100);
    TwoOfDigits(s, 2, t.date.year % 100);
    TwoOfDigits(s, 5, t.date.month);
    TwoOfDigits(s, 8, t.date.day);
    TwoOfDigits(s, 11, t.hour);
    TwoOfDigits(s, 14, t.minute);
    TwoOfDigits(s, 17, t.second);
  }

  /** What `isoformat()` writes, `to_datetime` reads back, for every moment
      a `Timestamp` can hold. */
  lemma TimestampRoundTrip(t: DateTime)
    requires ValidDateTime(t) && InTimestampRange(t)
    ensures ParseTimestamp(IsoString(t)) == Some(t)
  {
    IsoStringFields(t);
  }

  lemma DigitsOfTwo(s: string, i: nat)
    requires i + 2 <= |s| && IsDigit(s[i]) && IsDigit(s[i + 1])
    ensures Two(s, i) < 100 && TwoDigits(Two(s, i)) == s[i..i + 2]
  {
    assert DigitChar(DigitValue(s[i])) == s[i];
    assert DigitChar(DigitValue(s[i + 1])) == s[i + 1];
  }

  /** A string `to_datetime` accepts is exactly the `isoformat()` text of
      the moment it denotes. */
  lemma TimestampExact(s: string)
    requires ParseTimestamp(s).Some?
    ensures IsoString(ParseTimestamp(s).value) == s
  {
    var t := ShapeFields(s);
    IsoStringChars(t);
    assert t.date.year / 100 == Two(s, 0) && t.date.year % 100 == Two(s, 2);
    DigitsOfTwo(s, 0);
    DigitsOfTwo(s, 2);
    DigitsOfTwo(s, 5);
    DigitsOfTwo(s, 8);
    DigitsOfTwo(s, 11);
    DigitsOfTwo(s, 14);
    DigitsOfTwo(s, 17);
    var r := IsoString(t);
    assert forall i | 0 <= i < 19 :: r[i] == s[i] by {
      assert r[..2] == s[..2] && r[2..4] == s[2..4] && r[5..7] == s[5..7] && r[8..10] == s[8..10];
      assert r[11..13] == s[11..13] && r[14..16] == s[14..16] && r[17..] == s[17..];
    }
  }

  /** A date at midnight is a `Timestamp` exactly when it falls strictly
      after 1677-09-21 and no later than 2262-04-11: the first day's
      midnight lies before the first representable second. */
  lemma MidnightInRange(d: Date)
    requires ValidDate(d)
    ensures InTimestampRange(Midnight(d)) <==> DateBefore(FirstTimestamp.date, d) && !DateBefore(LastTimestamp.date, d)
  {
  }
}
