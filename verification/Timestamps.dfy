/** `utcnow_iso` (`store.py`): instants as fixed-width ISO 8601 text in UTC, cut to
    whole seconds, and their order as text (section 5.1 of RFC 3339). */
module Timestamps {
  import opened Text

  /** Proleptic Gregorian calendar fields, years 1 to 9999. */
  datatype Civil = Civil(year: int, month: int, day: int, hour: int, minute: int, second: int)

  predicate IsLeap(year: int) {
    year % 4 == 0 && (year % 100 != 0 || year % 400 == 0)
  }

  function YearLength(year: int): int {
    if IsLeap(year) then 366 else 365
  }

  function MonthLength(year: int, month: int): int {
    if month == 2 then (if IsLeap(year) then 29 else 28)
    else if month in {4, 6, 9, 11} then 30
    else 31
  }

  predicate Valid(c: Civil) {
    && 1 <= c.year <= 9999 && 1 <= c.month <= 12 && 1 <= c.day <= MonthLength(c.year, c.month)
    && 0 <= c.hour < 24 && 0 <= c.minute < 60 && 0 <= c.second < 60
  }

  function DaysBeforeYear(year: int): int
    requires 1 <= year
    decreases year
  {
    if year == 1 then 0 else DaysBeforeYear(year - 1) + YearLength(year - 1)
  }

  function DaysBeforeMonth(year: int, month: int): int
    requires 1 <= month
    decreases month
  {
    if month == 1 then 0 else DaysBeforeMonth(year, month - 1) + MonthLength(year, month - 1)
  }

  /** Days since 0001-01-01. */
  function DayNumber(c: Civil): int
    requires Valid(c)
  {
    DaysBeforeYear(c.year) + DaysBeforeMonth(c.year, c.month) + c.day - 1
  }

  /** Seconds since 0001-01-01T00:00:00. */
  function Instant(c: Civil): int
    requires Valid(c)
  {
    DayNumber(c) * 86400 + c.hour * 3600 + c.minute * 60 + c.second
  }

  /** Field-by-field order. */
  predicate Earlier(a: Civil, b: Civil) {
    || a.year < b.year
    || (a.year == b.year && (
          || a.month < b.month
          || (a.month == b.month && (
                || a.day < b.day
                || (a.day == b.day && (
                      || a.hour < b.hour
                      || (a.hour == b.hour && (
                            || a.minute < b.minute
                            || (a.minute == b.minute && a.second < b.second)))))))))
  }

  lemma {:induction false} YearsAreDisjoint(y: int, z: int)
    requires 1 <= y < z
    ensures DaysBeforeYear(y) + YearLength(y) <= DaysBeforeYear(z)
    decreases z
  {
    if y < z - 1 {
      YearsAreDisjoint(y, z - 1);
    }
  }

  lemma {:induction false} MonthsAreDisjoint(year: int, m: int, n: int)
    requires 1 <= m < n
    ensures DaysBeforeMonth(year, m) + MonthLength(year, m) <= DaysBeforeMonth(year, n)
    decreases n
  {
    if m < n - 1 {
      MonthsAreDisjoint(year, m, n - 1);
    }
  }

  function MonthsBefore(year: int): seq<int> {
    var feb := if IsLeap(year) then 29 else 28;
    [0, 31, 31 + feb, 62 + feb, 92 + feb, 123 + feb, 153 + feb, 184 + feb, 215 + feb, 245 + feb, 276 + feb, 306 + feb]
  }

  lemma {:induction false} MonthTable(year: int, month: int)
    requires 1 <= month <= 12
    ensures DaysBeforeMonth(year, month) == MonthsBefore(year)[month - 1]
    decreases month
  {
    if month > 1 {
      MonthTable(year, month - 1);
    }
  }

  lemma MonthFitsYear(year: int, month: int)
    requires 1 <= month <= 12
    ensures 0 <= DaysBeforeMonth(year, month)
    ensures DaysBeforeMonth(year, month) + MonthLength(year, month) <= YearLength(year)
  {
  }

  lemma EarlierDay(a: Civil, b: Civil)
    requires Valid(a) && Valid(b) && Earlier(a, b)
    ensures
      || DayNumber(a) < DayNumber(b)
      || (DayNumber(a) == DayNumber(b) && a.year == b.year && a.month == b.month && a.day == b.day)
  {
    MonthFitsYear(a.year, a.month);
    MonthFitsYear(b.year, b.month);
    if a.year < b.year {
      YearsAreDisjoint(a.year, b.year);
    } else if a.month < b.month {
      MonthsAreDisjoint(a.year, a.month, b.month);
    }
  }

  /** The calendar order is the chronological order. */
  lemma EarlierIsSooner(a: Civil, b: Civil)
    requires Valid(a) && Valid(b) && Earlier(a, b)
    ensures Instant(a) < Instant(b)
  {
    EarlierDay(a, b);
  }

  // Text.

  function Digit(d: int): char
    requires 0 <= d < 10
  {
    "0123456789"[d]
  }

  /** The last `width` decimal digits of `n`. */
  function Pad(n: int, width: nat): string
    requires 0 <= n
  {
    if width == 0 then "" else Pad(n / 10, width - 1) + [Digit(n % 10)]
  }

  function Format(c: Civil): string
    requires Valid(c)
  {
    Pad(c.year, 4) + ("-" + (Pad(c.month, 2) + ("-" + (Pad(c.day, 2) + ("T" + (Pad(c.hour, 2)
      + (":" + (Pad(c.minute, 2) + (":" + (Pad(c.second, 2) + "+00:00"))))))))))
  }

  /** 10 to the power `width`. */
  function Power10(width: nat): int {
    if width == 0 then 1 else 10 * Power10(width - 1)
  }

  lemma {:induction false} PadLength(n: int, width: nat)
    requires 0 <= n
    ensures |Pad(n, width)| == width
  {
    if width > 0 { PadLength(n / 10, width - 1); }
  }

  /** Zero-padded numbers of one width compare as numbers. */
  lemma {:induction false} PadOrder(m: int, n: int, width: nat)
    requires 0 <= m < Power10(width) && 0 <= n < Power10(width)
    ensures Less(Pad(m, width), Pad(n, width)) <==> m < n
    ensures Pad(m, width) == Pad(n, width) <==> m == n
  {
    if width > 0 {
      PadOrder(m / 10, n / 10, width - 1);
      PadLength(m / 10, width - 1);
      PadLength(n / 10, width - 1);
      LessByBlock(Pad(m / 10, width - 1), Pad(n / 10, width - 1), [Digit(m % 10)], [Digit(n % 10)]);
      var p, q := Pad(m, width), Pad(n, width);
      assert p[..width - 1] == Pad(m / 10, width - 1) && p[width - 1] == Digit(m % 10);
      assert q[..width - 1] == Pad(n / 10, width - 1) && q[width - 1] == Digit(n % 10);
      assert Less([Digit(m % 10)], [Digit(n % 10)]) <==> Digit(m % 10) < Digit(n % 10);
    }
  }

  /** One field and its separator ahead of the rest. */
  lemma FieldOrder(m: int, n: int, width: nat, sep: string, s: string, t: string)
    requires 0 <= m < Power10(width) && 0 <= n < Power10(width)
    ensures Less(Pad(m, width) + (sep + s), Pad(n, width) + (sep + t)) <==> m < n || (m == n && Less(s, t))
  {
    PadOrder(m, n, width);
    PadLength(m, width);
    PadLength(n, width);
    LessByBlock(Pad(m, width), Pad(n, width), sep + s, sep + t);
    LessByBlock(sep, sep, s, t);
    LessIrreflexive(sep);
  }

  /** The text order of two timestamps is the field-by-field order. */
  lemma FormatOrder(a: Civil, b: Civil)
    requires Valid(a) && Valid(b)
    ensures Less(Format(a), Format(b)) <==> Earlier(a, b)
  {
    assert Power10(2) == 100 && Power10(4) == 10000;
    var zone := "00:00";
    var secA, secB := Pad(a.second, 2) + ("+" + zone), Pad(b.second, 2) + ("+" + zone);
    assert "+" + zone == "+00:00";
    FieldOrder(a.second, b.second, 2, "+", zone, zone);
    LessIrreflexive(zone);
    var minA, minB := Pad(a.minute, 2) + (":" + secA), Pad(b.minute, 2) + (":" + secB);
    FieldOrder(a.minute, b.minute, 2, ":", secA, secB);
    var hourA, hourB := Pad(a.hour, 2) + (":" + minA), Pad(b.hour, 2) + (":" + minB);
    FieldOrder(a.hour, b.hour, 2, ":", minA, minB);
    var dayA, dayB := Pad(a.day, 2) + ("T" + hourA), Pad(b.day, 2) + ("T" + hourB);
    FieldOrder(a.day, b.day, 2, "T", hourA, hourB);
    var monthA, monthB := Pad(a.month, 2) + ("-" + dayA), Pad(b.month, 2) + ("-" + dayB);
    FieldOrder(a.month, b.month, 2, "-", dayA, dayB);
    FieldOrder(a.year, b.year, 4, "-", monthA, monthB);
  }

  /** The number that decimal digits denote. */
  function Number(digits: string): int {
    if digits == "" then 0
    else Number(digits[..|digits| - 1]) * 10 + (digits[|digits| - 1] as int - '0' as int)
  }

  lemma {:induction false} PadReads(n: int, width: nat)
    requires 0 <= n < Power10(width)
    ensures |Pad(n, width)| == width && Number(Pad(n, width)) == n
    ensures forall i :: 0 <= i < width ==> '0' <= Pad(n, width)[i] <= '9'
  {
    if width > 0 {
      PadReads(n / 10, width - 1);
      var text := Pad(n, width);
      assert text[..width - 1] == Pad(n / 10, width - 1) && text[width - 1] == Digit(n % 10);
    }
  }

  /** The text is `YYYY-MM-DDTHH:MM:SS+00:00` and its fields read back. */
  lemma FormatReads(c: Civil)
    requires Valid(c)
    ensures var t := Format(c);
      && |t| == 25 && t[4] == '-' && t[7] == '-' && t[10] == 'T' && t[13] == ':' && t[16] == ':' && t[19..] == "+00:00"
      && Number(t[0..4]) == c.year && Number(t[5..7]) == c.month && Number(t[8..10]) == c.day
      && Number(t[11..13]) == c.hour && Number(t[14..16]) == c.minute && Number(t[17..19]) == c.second
  {
    assert Power10(2) == 100 && Power10(4) == 10000;
    PadReads(c.year, 4);
    PadReads(c.month, 2);
    PadReads(c.day, 2);
    PadReads(c.hour, 2);
    PadReads(c.minute, 2);
    PadReads(c.second, 2);
    Pieces(Pad(c.year, 4), Pad(c.month, 2), Pad(c.day, 2), Pad(c.hour, 2), Pad(c.minute, 2), Pad(c.second, 2));
  }

  lemma Pieces(y: string, mo: string, d: string, h: string, mi: string, s: string)
    requires |y| == 4 && |mo| == |d| == |h| == |mi| == |s| == 2
    ensures var t :=
        y + ("-" + (mo + ("-" + (d + ("T" + (h + (":" + (mi + (":" + (s + "+00:00"))))))))));
      && |t| == 25 && t[4] == '-' && t[7] == '-' && t[10] == 'T' && t[13] == ':' && t[16] == ':' && t[19..] == "+00:00"
      && t[0..4] == y && t[5..7] == mo && t[8..10] == d && t[11..13] == h && t[14..16] == mi && t[17..19] == s
  {
  }

  // From an instant to its fields.

  /** Days of the years 1 to 9999, and their seconds. */
  const DAYS: int := 3_652_059
  const LIMIT: int := DAYS * 86400

  /** The closed form of the calendar. */
  lemma {:induction false} LeapYearsCounted(year: int)
    requires 1 <= year
    ensures DaysBeforeYear(year) == 365 * (year - 1) + (year - 1) / 4 - (year - 1) / 100 + (year - 1) / 400
    decreases year
  {
    if year > 1 {
      LeapYearsCounted(year - 1);
      YearAdds(year - 1);
    }
  }

  lemma YearAdds(n: int)
    requires 1 <= n
    ensures YearLength(n) == 365 + n / 4 - (n - 1) / 4 - n / 100 + (n - 1) / 100 + n / 400 - (n - 1) / 400
  {
    MultiplePassed(n, 4);
    MultiplePassed(n, 100);
    MultiplePassed(n, 400);
    LeapMultiples(n);
  }

  lemma LeapMultiples(n: int)
    ensures n % 400 == 0 ==> n % 100 == 0
    ensures n % 100 == 0 ==> n % 4 == 0
  {
  }

  lemma MultiplePassed(n: int, k: int)
    requires 1 <= n && k in {4, 100, 400}
    ensures n / k == (n - 1) / k + if n % k == 0 then 1 else 0
  {
  }

  lemma CalendarEnds()
    ensures DaysBeforeYear(10000) == DAYS
  {
    LeapYearsCounted(10000);
  }

  /** The year containing day `d`, searched from `y` on. */
  function YearOf(d: int, y: int): (year: int)
    requires 1 <= y <= 9999 && DaysBeforeYear(y) <= d < DAYS
    ensures y <= year <= 9999 && DaysBeforeYear(year) <= d < DaysBeforeYear(year) + YearLength(year)
    decreases 9999 - y
  {
    if d < DaysBeforeYear(y) + YearLength(y) then y
    else
      CalendarEnds();
      YearOf(d, y + 1)
  }

  /** The month of the year containing its day `d`, searched from `m` on. */
  function MonthOf(year: int, d: int, m: int): (month: int)
    requires 1 <= m <= 12 && DaysBeforeMonth(year, m) <= d < DaysBeforeMonth(year, 12) + MonthLength(year, 12)
    ensures m <= month <= 12
    ensures DaysBeforeMonth(year, month) <= d < DaysBeforeMonth(year, month) + MonthLength(year, month)
    decreases 12 - m
  {
    if d < DaysBeforeMonth(year, m) + MonthLength(year, m) then m else MonthOf(year, d, m + 1)
  }

  lemma YearEnds(year: int)
    ensures DaysBeforeMonth(year, 12) + MonthLength(year, 12) == YearLength(year)
  {
  }

  /** Calendar date of a day number, at midnight. */
  function DateOf(day: int): (c: Civil)
    requires 0 <= day < DAYS
    ensures Valid(c) && DayNumber(c) == day && c.hour == c.minute == c.second == 0
  {
    var year := YearOf(day, 1);
    YearEnds(year);
    var dayOfYear := day - DaysBeforeYear(year);
    var month := MonthOf(year, dayOfYear, 1);
    Civil(year, month, dayOfYear - DaysBeforeMonth(year, month) + 1, 0, 0, 0)
  }

  function Fields(t: int): (c: Civil)
    requires 0 <= t < LIMIT
    ensures Valid(c) && Instant(c) == t
  {
    var day := t / 86400;
    var ofDay := t - day * 86400;
    var hour := ofDay / 3600;
    var ofHour := ofDay - hour * 3600;
    var minute := ofHour / 60;
    DateOf(day).(hour := hour, minute := minute, second := ofHour - minute * 60)
  }

  /** The text of an instant given in microseconds. */
  function UtcNowIso(micros: int): string
    requires 0 <= micros / 1_000_000 < LIMIT
  {
    Format(Fields(micros / 1_000_000))
  }

  /** Timestamps compare as text exactly as their instants compare in whole
      seconds, for every instant of the years 1 to 9999. */
  lemma TextOrderIsTimeOrder(a: int, b: int)
    requires 0 <= a / 1_000_000 < LIMIT && 0 <= b / 1_000_000 < LIMIT
    ensures Less(UtcNowIso(a), UtcNowIso(b)) <==> a / 1_000_000 < b / 1_000_000
    ensures UtcNowIso(a) == UtcNowIso(b) <==> a / 1_000_000 == b / 1_000_000
  {
    var x, y := Fields(a / 1_000_000), Fields(b / 1_000_000);
    FormatOrder(x, y);
    FormatOrder(y, x);
    if Earlier(x, y) {
      EarlierIsSooner(x, y);
    } else if Earlier(y, x) {
      EarlierIsSooner(y, x);
    } else {
      assert x == y;
    }
    if UtcNowIso(a) == UtcNowIso(b) { LessIrreflexive(UtcNowIso(a)); }
  }

  /** The reaper's comparison on text: a start that precedes the cutoff as text
      precedes it in time, by the full threshold. */
  lemma ReapedTextIsOld(started: int, now: int, threshold: nat, cutoff: int)
    requires cutoff == now - threshold
    requires 0 <= started / 1_000_000 < LIMIT && 0 <= cutoff / 1_000_000 < LIMIT
    ensures Less(UtcNowIso(started), UtcNowIso(cutoff)) ==> started + threshold < now
  {
    TextOrderIsTimeOrder(started, cutoff);
    if started / 1_000_000 < cutoff / 1_000_000 {
      FloorOrder(started, cutoff);
    }
  }

  lemma FloorOrder(a: int, b: int)
    requires a / 1_000_000 < b / 1_000_000
    ensures a < b
  {
  }
}
