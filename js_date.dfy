/** The part of JavaScript's `Date` that the trending window uses, on one
    UTC calendar: the proleptic Gregorian calendar, the day-of-month
    roll-over that `setDate` and `setMonth` perform (MakeDay, section
    21.4.1.28 of ECMA-262), and the `YYYY-MM-DD` date part that
    `toISOString` prints (section 21.4.1.32 of ECMA-262, the calendar date
    in the extended format of section 4.1.2.2 of ISO 8601:2004). */
module JsDate {
  import opened JsString

  /** A calendar date; `month` counts from 1 (January) to 12. */
  datatype Date = Date(year: int, month: int, day: int)

  datatype YearMonth = YearMonth(year: int, month: int)

  predicate IsLeapYear(y: int) {
    y % 4 == 0 && (y % 100 != 0 || y % 400 == 0)
  }

  function DaysInMonth(y: int, m: int): (n: int)
    requires 1 <= m <= 12
    ensures 28 <= n <= 31
    ensures n == 29 <==> m == 2 && IsLeapYear(y)
  {
    if m == 2 then (if IsLeapYear(y) then 29 else 28)
    else if m == 4 || m == 6 || m == 9 || m == 11 then 30
    else 31
  }

  predicate ValidDate(d: Date) {
    1 <= d.month <= 12 && 1 <= d.day <= DaysInMonth(d.year, d.month)
  }

  function PreviousMonth(y: int, m: int): (r: YearMonth)
    requires 1 <= m <= 12
    ensures 1 <= r.month <= 12
  {
    if m == 1 then YearMonth(y - 1, 12) else YearMonth(y, m - 1)
  }

  function FollowingMonth(y: int, m: int): (r: YearMonth)
    requires 1 <= m <= 12
    ensures 1 <= r.month <= 12
  {
    if m == 12 then YearMonth(y + 1, 1) else YearMonth(y, m + 1)
  }

  /** Day `d` of month `m` of year `y`, where `d` may lie outside the month:
      a day before the first rolls back into earlier months and a day past
      the month's end rolls forward, as MakeDay does for `setDate` and
      `setMonth`. */
  function Normalize(y: int, m: int, d: int): (r: Date)
    requires 1 <= m <= 12
    ensures ValidDate(r)
    decreases if d < 1 then 1 - d else 0, if d < 1 then 0 else d
  {
    if d < 1 then
      var p := PreviousMonth(y, m);
      Normalize(p.year, p.month, d + DaysInMonth(p.year, p.month))
    else if d > DaysInMonth(y, m) then
      var f := FollowingMonth(y, m);
      Normalize(f.year, f.month, d - DaysInMonth(y, m))
    else
      Date(y, m, d)
  }

  /** `date.setDate(n)`: keeps year and month and sets the day to `n`,
      rolling over. A day the month has is taken as it is, and setting the
      day to `n` no later than today's goes back exactly `date.day - n`
      days, across month and year ends. */
  function SetDate(date: Date, n: int): (r: Date)
    requires 1 <= date.month <= 12
    ensures ValidDate(r)
    ensures 1 <= n <= DaysInMonth(date.year, date.month) ==> r == Date(date.year, date.month, n)
    ensures ValidDate(date) && n <= date.day ==> NextDays(r, date.day - n) == date
  {
    if ValidDate(date) && n <= date.day then
      NextDaysOfNormalize(date.year, date.month, n, date.day - n);
      NormalizeValid(date);
      Normalize(date.year, date.month, n)
    else
      Normalize(date.year, date.month, n)
  }

  /** `date.setMonth(index)` with JavaScript's zero-based month index: an
      index outside 0..11 moves the year (floor division; Dafny's `/` and
      `%` by a positive constant agree with it), and a day past the end of
      the target month rolls forward. */
  function SetMonth(date: Date, index: int): (r: Date)
    ensures ValidDate(r)
    ensures var y, m := date.year + index / 12, index % 12 + 1;
      1 <= date.day <= DaysInMonth(y, m) ==> r == Date(y, m, date.day)
    ensures var y, m := date.year + index / 12, index % 12 + 1;
      var f := FollowingMonth(y, m);
      DaysInMonth(y, m) < date.day <= DaysInMonth(y, m) + 28 ==>
        r == Date(f.year, f.month, date.day - DaysInMonth(y, m))
  {
    var y, m := date.year + index / 12, index % 12 + 1;
    if DaysInMonth(y, m) < date.day then
      var f := FollowingMonth(y, m);
      assert date.day - DaysInMonth(y, m) <= 28 ==>
        Normalize(f.year, f.month, date.day - DaysInMonth(y, m)) == Date(f.year, f.month, date.day - DaysInMonth(y, m));
      Normalize(y, m, date.day)
    else
      Normalize(y, m, date.day)
  }

  /** The calendar day after `d`. */
  function NextDay(d: Date): (r: Date)
    requires ValidDate(d)
    ensures ValidDate(r)
  {
    if d.day < DaysInMonth(d.year, d.month) then Date(d.year, d.month, d.day + 1)
    else
      var f := FollowingMonth(d.year, d.month);
      Date(f.year, f.month, 1)
  }

  /** The calendar day `k` days after `d`. */
  function NextDays(d: Date, k: nat): (r: Date)
    requires ValidDate(d)
    ensures ValidDate(r)
  {
    if k == 0 then d else NextDay(NextDays(d, k - 1))
  }

  /** Calendar order: `a` is a strictly earlier day than `b`. */
  predicate Before(a: Date, b: Date) {
    || a.year < b.year
    || (a.year == b.year && a.month < b.month)
    || (a.year == b.year && a.month == b.month && a.day < b.day)
  }

  /** A valid date normalizes to itself. */
  lemma NormalizeValid(d: Date)
    requires ValidDate(d)
    ensures Normalize(d.year, d.month, d.day) == d
  {
  }

  /** Stepping one day forward from a normalized date is normalizing the
      next day number: MakeDay is day arithmetic. */
  lemma {:induction false} NextDayOfNormalize(y: int, m: int, d: int)
    requires 1 <= m <= 12
    ensures NextDay(Normalize(y, m, d)) == Normalize(y, m, d + 1)
    decreases if d < 1 then 1 - d else 0, if d < 1 then 0 else d
  {
    if d < 1 {
      var p := PreviousMonth(y, m);
      NextDayOfNormalize(p.year, p.month, d + DaysInMonth(p.year, p.month));
      if d == 0 {
        assert FollowingMonth(p.year, p.month) == YearMonth(y, m);
      }
    } else if d > DaysInMonth(y, m) {
      var f := FollowingMonth(y, m);
      NextDayOfNormalize(f.year, f.month, d - DaysInMonth(y, m));
    } else if d == DaysInMonth(y, m) {
      var f := FollowingMonth(y, m);
      assert Normalize(f.year, f.month, 1) == Date(f.year, f.month, 1);
    }
  }

  lemma {:induction false} NextDaysOfNormalize(y: int, m: int, d: int, k: nat)
    requires 1 <= m <= 12
    ensures NextDays(Normalize(y, m, d), k) == Normalize(y, m, d + k)
  {
    if k > 0 {
      NextDaysOfNormalize(y, m, d, k - 1);
      NextDayOfNormalize(y, m, d + k - 1);
    }
  }

  lemma BeforeTransitive(a: Date, b: Date, c: Date)
    requires Before(a, b) && Before(b, c)
    ensures Before(a, c)
  {
  }

  lemma {:induction false} BeforeNextDays(d: Date, k: nat)
    requires ValidDate(d) && k >= 1
    ensures Before(d, NextDays(d, k))
  {
    if k > 1 {
      BeforeNextDays(d, k - 1);
      BeforeTransitive(d, NextDays(d, k - 1), NextDays(d, k));
    }
  }

  /** The date part of `toISOString()`: a four-digit year for years 0 to
      9999, otherwise a sign and six digits; then two-digit month and day.
      For years 0 to 9999 the result has the `YYYY-MM-DD` shape and reads
      back as the same date. */
  function FormatIsoDate(d: Date): (s: string)
    requires ValidDate(d)
    ensures 0 <= d.year <= 9999 ==> IsIsoDateShape(s) && ParseIsoDate(s) == Some(d)
    ensures !(0 <= d.year <= 9999) ==>
      && |s| == 13 && s[0] == (if d.year < 0 then '-' else '+')
      && IsDigits(s[1..7]) && s[7] == '-' && IsDigits(s[8..10]) && s[10] == '-' && IsDigits(s[11..])
  {
    var year :=
      if 0 <= d.year <= 9999 then ZeroPad(d.year, 4)
      else if d.year < 0 then "-" + ZeroPad(-d.year, 6)
      else "+" + ZeroPad(d.year, 6);
    var m, dd := ZeroPad(d.month, 2), ZeroPad(d.day, 2);
    if 0 <= d.year <= 9999 then
      IsoDateFields(year, m, dd);
      assert Pow10(2) == 100 && Pow10(4) == 10000;
      ZeroPadRoundTrip(d.year, 4);
      ZeroPadRoundTrip(d.month, 2);
      ZeroPadRoundTrip(d.day, 2);
      year + "-" + m + "-" + dd
    else
      year + "-" + m + "-" + dd
  }

  /** The shape `YYYY-MM-DD`: ten characters, digits except for the dashes
      at positions 4 and 7. */
  predicate IsIsoDateShape(s: string) {
    && |s| == 10
    && IsDigits(s[..4]) && s[4] == '-'
    && IsDigits(s[5..7]) && s[7] == '-'
    && IsDigits(s[8..])
  }

  /** Reads a `YYYY-MM-DD` string back into a date; `None` for any other
      string and for a day that does not exist. */
  function ParseIsoDate(s: string): Option<Date> {
    if !IsIsoDateShape(s) then None
    else
      var d := Date(ParseDigits(s[..4]), ParseDigits(s[5..7]), ParseDigits(s[8..]));
      if ValidDate(d) then Some(d) else None
  }

  /** Where the fields of a `YYYY-MM-DD` string sit. */
  lemma IsoDateFields(y: string, m: string, d: string)
    requires |y| == 4 && |m| == 2 && |d| == 2
    ensures var s := y + "-" + m + "-" + d;
      |s| == 10 && s[..4] == y && s[4] == '-' && s[5..7] == m && s[7] == '-' && s[8..] == d
  {
  }

  /** Conversely, every string that reads as a date is that date printed. */
  lemma IsoDateParseRoundTrip(s: string)
    requires ParseIsoDate(s).Some?
    ensures var d := ParseIsoDate(s).value; 0 <= d.year <= 9999 && FormatIsoDate(d) == s
  {
    var d := ParseIsoDate(s).value;
    ParseZeroPadRoundTrip(s[..4]);
    ParseZeroPadRoundTrip(s[5..7]);
    ParseZeroPadRoundTrip(s[8..]);
    assert s == s[..4] + "-" + s[5..7] + "-" + s[8..];
  }
}
