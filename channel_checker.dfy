/**
 * The timestamp the channel checker stamps on a playlist: seconds since the Unix epoch
 * split into a Gregorian date (by counting whole years, then whole months) and a time of
 * day, written as zero-padded "YYYY-MM-DDTHH:MM:SSZ".
 */
module ChannelChecker {
  import opened Decimal

  /** `is_leap_year`: the Gregorian rule. */
  predicate IsLeapYear(year: nat)
    ensures IsLeapYear(year) ==> year % 4 == 0
    ensures year % 4 == 0 && year % 100 != 0 ==> IsLeapYear(year)
    ensures year % 100 == 0 ==> (IsLeapYear(year) <==> year % 400 == 0)
  {
    (year % 4 == 0 && year % 100 != 0) || year % 400 == 0
  }

  function DaysInYear(year: nat): (n: nat)
    ensures n == 365 || n == 366
  {
    if IsLeapYear(year) then 366 else 365
  }

  /** The `month_days` table the conversion walks through for `year`. */
  function MonthDays(year: nat): (t: seq<nat>)
    ensures |t| == 12
  {
    if IsLeapYear(year) then [31, 29, 31, 30, 31, 30, 31, 31, 30, 31, 30, 31]
    else [31, 28, 31, 30, 31, 30, 31, 31, 30, 31, 30, 31]
  }

  function DaysInMonth(year: nat, month: nat): nat
    requires 1 <= month <= 12
  {
    MonthDays(year)[month - 1]
  }

  datatype Date = Date(year: nat, month: nat, day: nat)

  /** A calendar date on or after 1970-01-01. */
  predicate ValidDate(d: Date) {
    d.year >= 1970 && 1 <= d.month <= 12 && 1 <= d.day <= DaysInMonth(d.year, d.month)
  }

  /** Leap years in 1..y. */
  function LeapsThrough(y: nat): nat {
    y / 4 - y / 100 + y / 400
  }

  /** Days from 1970-01-01 to January 1st of `year`, in closed form. */
  function DaysBeforeYear(year: nat): nat
    requires year >= 1970
  {
    365 * (year - 1970) + (LeapsThrough(year - 1) - LeapsThrough(1969))
  }

  /** Days from January 1st to the first of `month` (13 stands for the next January 1st). */
  function DaysBeforeMonth(year: nat, month: nat): nat
    requires 1 <= month <= 13
  {
    [0, 31, 59, 90, 120, 151, 181, 212, 243, 273, 304, 334, 365][month - 1]
      + (if IsLeapYear(year) && month > 2 then 1 else 0)
  }

  /** The number of days since 1970-01-01 of a date: the quantity `days_to_ymd` inverts. */
  function DayNumber(d: Date): nat
    requires ValidDate(d)
  {
    DaysBeforeYear(d.year) + DaysBeforeMonth(d.year, d.month) + d.day - 1
  }

  /** Lexicographic order on (year, month, day). */
  predicate Before(a: Date, b: Date) {
    a.year < b.year || (a.year == b.year && (a.month < b.month || (a.month == b.month && a.day < b.day)))
  }

  lemma LeapsStep(y: nat)
    requires y >= 1
    ensures LeapsThrough(y) == LeapsThrough(y - 1) + (if IsLeapYear(y) then 1 else 0)
  {
    var q4, q100, q400 := (y - 1) / 4, (y - 1) / 100, (y - 1) / 400;
    assert y / 4 == if y % 4 == 0 then q4 + 1 else q4;
    assert y / 100 == if y % 100 == 0 then q100 + 1 else q100;
    assert y / 400 == if y % 400 == 0 then q400 + 1 else q400;
    assert y % 400 == 0 ==> y % 100 == 0 && y % 4 == 0;
    assert y % 100 == 0 ==> y % 4 == 0;
  }

  /** The closed form advances by the length of each year it passes. */
  lemma DaysBeforeNextYear(year: nat)
    requires year >= 1970
    ensures DaysBeforeYear(year + 1) == DaysBeforeYear(year) + DaysInYear(year)
  {
    LeapsStep(year);
  }

  /** The cumulative table advances by the length of each month it passes. */
  lemma DaysBeforeNextMonth(year: nat, month: nat)
    requires 1 <= month <= 12
    ensures DaysBeforeMonth(year, month + 1) == DaysBeforeMonth(year, month) + DaysInMonth(year, month)
  {
  }

  lemma DaysBeforeMonthEnd(year: nat)
    ensures DaysBeforeMonth(year, 13) == DaysInYear(year)
  {
  }

  lemma {:induction false} DaysBeforeYearMono(a: nat, b: nat)
    requires 1970 <= a <= b
    ensures DaysBeforeYear(a) + (if a < b then DaysInYear(a) else 0) <= DaysBeforeYear(b)
    decreases b - a
  {
    if a < b {
      DaysBeforeNextYear(a);
      DaysBeforeYearMono(a + 1, b);
    }
  }

  lemma DaysBeforeMonthMono(year: nat, a: nat, b: nat)
    requires 1 <= a < b <= 13
    ensures DaysBeforeMonth(year, a) + DaysInMonth(year, a) <= DaysBeforeMonth(year, b)
  {
    DaysBeforeNextMonth(year, a);
  }

  /** A valid date's day number lies within its year. */
  lemma DayNumberInYear(d: Date)
    requires ValidDate(d)
    ensures DaysBeforeYear(d.year) <= DayNumber(d) < DaysBeforeYear(d.year) + DaysInYear(d.year)
  {
    DaysBeforeMonthMono(d.year, d.month, 13);
    DaysBeforeMonthEnd(d.year);
  }

  /** Calendar order and day-number order agree, in both directions. */
  lemma BeforeIffEarlier(a: Date, b: Date)
    requires ValidDate(a) && ValidDate(b)
    ensures Before(a, b) <==> DayNumber(a) < DayNumber(b)
  {
    DayNumberInYear(a);
    DayNumberInYear(b);
    if a.year < b.year {
      DaysBeforeYearMono(a.year, b.year);
    } else if b.year < a.year {
      DaysBeforeYearMono(b.year, a.year);
    } else if a.month < b.month {
      DaysBeforeMonthMono(a.year, a.month, b.month);
    } else if b.month < a.month {
      DaysBeforeMonthMono(a.year, b.month, a.month);
    }
  }

  /** Different valid dates have different day numbers. */
  lemma DayNumberInjective(a: Date, b: Date)
    requires ValidDate(a) && ValidDate(b) && DayNumber(a) == DayNumber(b)
    ensures a == b
  {
    BeforeIffEarlier(a, b);
    BeforeIffEarlier(b, a);
  }

  /**
   * `days_to_ymd`: subtracts whole years from 1970 on, then whole months, and returns the
   * date whose day number is `days`.
   */
  method DaysToYmd(days: nat) returns (date: Date)
    ensures ValidDate(date) && DayNumber(date) == days
  {
    var rest := days;
    var year: nat := 1970;
    while true
      invariant year >= 1970 && DaysBeforeYear(year) + rest == days
      decreases rest
    {
      var daysInYear := if IsLeapYear(year) then 366 else 365;
      if rest < daysInYear {
        break;
      }
      rest := rest - daysInYear;
      DaysBeforeNextYear(year);
      year := year + 1;
    }
    var monthDays := MonthDays(year);
    var month: nat := 1;
    for i := 0 to 12
      invariant month == i + 1
      invariant DaysBeforeYear(year) + DaysBeforeMonth(year, month) + rest == days
      invariant DaysBeforeMonth(year, month) + rest < DaysInYear(year)
    {
      var md := monthDays[i];
      if rest < md {
        break;
      }
      rest := rest - md;
      DaysBeforeNextMonth(year, month);
      month := month + 1;
    }
    DaysBeforeMonthEnd(year);
    date := Date(year, month, rest + 1);
  }

  /** Day 0 is 1970-01-01, the epoch `days_to_ymd` counts from. */
  lemma EpochIsFirstOfJanuary1970(d: Date)
    requires ValidDate(d) && DayNumber(d) == 0
    ensures d == Date(1970, 1, 1)
  {
    DayNumberInjective(d, Date(1970, 1, 1));
  }

  /** `days_to_ymd` is strictly increasing: a later day is a later date. */
  lemma DaysToYmdMonotone(a: Date, b: Date, d1: nat, d2: nat)
    requires ValidDate(a) && DayNumber(a) == d1
    requires ValidDate(b) && DayNumber(b) == d2
    requires d1 < d2
    ensures Before(a, b)
  {
    BeforeIffEarlier(a, b);
  }

  datatype TimeOfDay = TimeOfDay(hours: nat, minutes: nat, seconds: nat)

  /** The time-of-day split of `chrono_now_iso8601`. */
  function SplitTime(secs: nat): (t: TimeOfDay)
    ensures t.hours < 24 && t.minutes < 60 && t.seconds < 60
    ensures t.hours * 3600 + t.minutes * 60 + t.seconds == secs % 86400
  {
    var timeOfDay := secs % 86400;
    TimeOfDay(timeOfDay / 3600, (timeOfDay % 3600) / 60, timeOfDay % 60)
  }

  /** `format!("{year:04}-{month:02}-{day:02}T{hours:02}:{minutes:02}:{seconds:02}Z")`. */
  function IsoText(d: Date, t: TimeOfDay): string {
    PadNat(d.year, 4) + ("-" + (PadNat(d.month, 2) + ("-" + (PadNat(d.day, 2) + ("T"
      + (PadNat(t.hours, 2) + (":" + (PadNat(t.minutes, 2) + (":" + (PadNat(t.seconds, 2) + "Z"))))))))))
  }

  /** `chrono_now_iso8601` with the clock reading passed in as seconds since the epoch. */
  method Iso8601(secs: nat) returns (text: string)
    ensures exists d :: ValidDate(d) && DayNumber(d) == secs / 86400 && text == IsoText(d, SplitTime(secs))
  {
    var days := secs / 86400;
    var timeOfDay := secs % 86400;
    var hours := timeOfDay / 3600;
    var minutes := (timeOfDay % 3600) / 60;
    var seconds := timeOfDay % 60;
    var date := DaysToYmd(days);
    text := IsoText(date, TimeOfDay(hours, minutes, seconds));
  }

  /** Where `s[p..]` starts with `f`, the field and what follows it can be sliced out of `s`. */
  lemma FieldAt(s: string, p: nat, f: string, rest: string)
    requires p <= |s| && s[p..] == f + rest
    ensures s[p..p + |f|] == f && s[p + |f|..] == rest
  {
    assert s[p..][..|f|] == f && s[p..][|f|..] == rest;
  }

  lemma IsoLayout(y: string, mo: string, da: string, h: string, mi: string, se: string)
    requires |y| == 4 && |mo| == 2 && |da| == 2 && |h| == 2 && |mi| == 2 && |se| == 2
    ensures var s := y + ("-" + (mo + ("-" + (da + ("T" + (h + (":" + (mi + (":" + (se + "Z"))))))))));
      && |s| == 20
      && s[4] == '-' && s[7] == '-' && s[10] == 'T' && s[13] == ':' && s[16] == ':' && s[19] == 'Z'
      && s[..4] == y && s[5..7] == mo && s[8..10] == da && s[11..13] == h && s[14..16] == mi && s[17..19] == se
  {
    var r10 := se + "Z";
    var r9 := ":" + r10;
    var r8 := mi + r9;
    var r7 := ":" + r8;
    var r6 := h + r7;
    var r5 := "T" + r6;
    var r4 := da + r5;
    var r3 := "-" + r4;
    var r2 := mo + r3;
    var r1 := "-" + r2;
    var s := y + r1;
    assert s[0..] == s;
    FieldAt(s, 0, y, r1);
    FieldAt(s, 4, "-", r2);
    FieldAt(s, 5, mo, r3);
    FieldAt(s, 7, "-", r4);
    FieldAt(s, 8, da, r5);
    FieldAt(s, 10, "T", r6);
    FieldAt(s, 11, h, r7);
    FieldAt(s, 13, ":", r8);
    FieldAt(s, 14, mi, r9);
    FieldAt(s, 16, ":", r10);
    FieldAt(s, 17, se, "Z");
    assert s[4] == s[4..5][0];
    assert s[7] == s[7..8][0];
    assert s[10] == s[10..11][0];
    assert s[13] == s[13..14][0];
    assert s[16] == s[16..17][0];
    assert s[19] == s[19..][0];
  }

  /**
   * Before year 10000 the text has a fixed layout, and each field reads back as the number
   * it came from, so distinct instants within range give distinct texts.
   */
  lemma IsoTextReadBack(d: Date, t: TimeOfDay)
    requires ValidDate(d) && d.year < 10000 && t.hours < 24 && t.minutes < 60 && t.seconds < 60
    ensures var s := IsoText(d, t);
      && |s| == 20
      && s[4] == '-' && s[7] == '-' && s[10] == 'T' && s[13] == ':' && s[16] == ':' && s[19] == 'Z'
      && AllDigits(s[..4]) && DigitsValue(s[..4]) == d.year
      && AllDigits(s[5..7]) && DigitsValue(s[5..7]) == d.month
      && AllDigits(s[8..10]) && DigitsValue(s[8..10]) == d.day
      && AllDigits(s[11..13]) && DigitsValue(s[11..13]) == t.hours
      && AllDigits(s[14..16]) && DigitsValue(s[14..16]) == t.minutes
      && AllDigits(s[17..19]) && DigitsValue(s[17..19]) == t.seconds
  {
    assert Pow10(2) == 100 && Pow10(4) == 10000;
    NatToStringShort(d.year, 4);
    NatToStringShort(d.month, 2);
    NatToStringShort(d.day, 2);
    NatToStringShort(t.hours, 2);
    NatToStringShort(t.minutes, 2);
    NatToStringShort(t.seconds, 2);
    var y, mo, da := PadNat(d.year, 4), PadNat(d.month, 2), PadNat(d.day, 2);
    var h, mi, se := PadNat(t.hours, 2), PadNat(t.minutes, 2), PadNat(t.seconds, 2);
    PadNatExact(d.year, 4);
    PadNatExact(d.month, 2);
    PadNatExact(d.day, 2);
    PadNatExact(t.hours, 2);
    PadNatExact(t.minutes, 2);
    PadNatExact(t.seconds, 2);
    IsoLayout(y, mo, da, h, mi, se);
  }
}
