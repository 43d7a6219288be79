/**
 * Date normalisation: a timestamp of the strict shape
 * `YYYY-MM-DDTHH:MM:SS±HHMM` is read, its wall-clock time is moved seven
 * hours back (the offset is read and kept but plays no part), and it is
 * written as `DD-MM-YYYY HH:MM:SS`. A string that does not have that shape
 * or names no real date and time comes back unchanged.
 */
module Dates {
  import opened Wrappers

  /** A wall-clock date and time, field by field. */
  datatype DateTime = DateTime(year: int, month: int, day: int, hour: int, minute: int, second: int)

  /** The `±HHMM` suffix, read but never used to move the time. */
  datatype UtcOffset = UtcOffset(negative: bool, hours: int, minutes: int)

  /** Leap years of the proleptic Gregorian calendar. */
  predicate IsLeapYear(y: int) {
    y % 4 == 0 && (y % 100 != 0 || y % 400 == 0)
  }

  function DaysInMonth(y: int, m: int): int
    requires 1 <= m <= 12
  {
    if m == 2 then (if IsLeapYear(y) then 29 else 28)
    else if m == 4 || m == 6 || m == 9 || m == 11 then 30
    else 31
  }

  function DaysInYear(y: int): int {
    if IsLeapYear(y) then 366 else 365
  }

  /** The dates and times a datetime value can hold: years 1 to 9999, real days, seconds 0 to 59. */
  predicate ValidDateTime(d: DateTime) {
    && 1 <= d.year <= 9999
    && 1 <= d.month <= 12
    && 1 <= d.day <= DaysInMonth(d.year, d.month)
    && 0 <= d.hour <= 23
    && 0 <= d.minute <= 59
    && 0 <= d.second <= 59
  }

  /** An offset strictly smaller than a day whose minutes are two digits below 60. */
  predicate ValidOffset(o: UtcOffset) {
    0 <= o.hours <= 23 && 0 <= o.minutes <= 59
  }

  // ---------- Digits ----------

  predicate IsDigit(c: char) {
    '0' <= c <= '9'
  }

  predicate AllDigits(s: string) {
    forall i :: 0 <= i < |s| ==> IsDigit(s[i])
  }

  /** The value of a run of decimal digits. */
  function Number(s: string): nat
    requires AllDigits(s)
  {
    if s == [] then 0 else Number(s[..|s| - 1]) * 10 + (s[|s| - 1] as int - '0' as int)
  }

  function Digit(n: nat): char
    requires n < 10
  {
    ('0' as int + n) as char
  }

  /** `n` as two decimal digits, zero-padded (`%02d`). */
  function TwoDigits(n: nat): (r: string)
    ensures |r| == 2 && AllDigits(r)
  {
    [Digit(n / 10 % 10), Digit(n % 10)]
  }

  /** `n` as four decimal digits, zero-padded (`%04d`). */
  function FourDigits(n: nat): (r: string)
    ensures |r| == 4 && AllDigits(r)
  {
    TwoDigits(n / 100 % 100) + TwoDigits(n % 100)
  }

  /** Reading back two digits gives the number, when it has at most two. */
  lemma NumberTwoDigits(n: nat)
    requires n < 100
    ensures Number(TwoDigits(n)) == n
  {
    var r := TwoDigits(n);
    assert r[..1][..0] == [];
    assert r[..1] == [Digit(n / 10 % 10)];
    assert Number(r[..1]) == n / 10;
    assert r[1] as int - '0' as int == n % 10;
  }

  /** Appending two digits shifts the value by two places. */
  lemma NumberAppendTwo(x: string, y: string)
    requires AllDigits(x) && AllDigits(y) && |y| == 2
    ensures AllDigits(x + y) && Number(x + y) == Number(x) * 100 + Number(y)
  {
    var xy := x + y;
    var x1 := x + y[..1];
    assert xy[..|xy| - 1] == x1;
    assert x1[..|x1| - 1] == x;
    assert y[..1][..0] == [];
    assert Number(x1) == Number(x) * 10 + (y[0] as int - '0' as int);
    assert Number(xy) == Number(x1) * 10 + (y[1] as int - '0' as int);
    assert Number(y[..1]) == y[0] as int - '0' as int;
    assert Number(y) == Number(y[..1]) * 10 + (y[1] as int - '0' as int);
  }

  /** Reading back four digits gives the number, when it has at most four. */
  lemma NumberFourDigits(n: nat)
    requires n < 10000
    ensures Number(FourDigits(n)) == n
  {
    var hi, lo := n / 100, n % 100;
    assert n == hi * 100 + lo;
    assert hi < 100 && hi % 100 == hi;
    assert FourDigits(n) == TwoDigits(hi) + TwoDigits(lo);
    NumberAppendTwo(TwoDigits(hi), TwoDigits(lo));
    NumberTwoDigits(hi);
    NumberTwoDigits(lo);
  }

  // ---------- Parsing ----------

  /** The characters of `YYYY-MM-DDTHH:MM:SS±HHMM`; the `T` matches either case, as the format's literals do. */
  predicate HasIsoShape(s: string) {
    && |s| == 24
    && AllDigits(s[0..4]) && s[4] == '-'
    && AllDigits(s[5..7]) && s[7] == '-'
    && AllDigits(s[8..10]) && (s[10] == 'T' || s[10] == 't')
    && AllDigits(s[11..13]) && s[13] == ':'
    && AllDigits(s[14..16]) && s[16] == ':'
    && AllDigits(s[17..19])
    && (s[19] == '+' || s[19] == '-')
    && AllDigits(s[20..22]) && AllDigits(s[22..24])
  }

  /**
   * Reading `%Y-%m-%dT%H:%M:%S%z`: `None` for a string of another shape,
   * for a date that does not exist, for second 60 or 61 and for an offset
   * of a day or more.
   */
  function Parse(s: string): (r: Option<(DateTime, UtcOffset)>)
    ensures r.Some? ==> HasIsoShape(s) && ValidDateTime(r.value.0) && ValidOffset(r.value.1)
  {
    if !HasIsoShape(s) then None
    else
      var d := DateTime(Number(s[0..4]), Number(s[5..7]), Number(s[8..10]),
                        Number(s[11..13]), Number(s[14..16]), Number(s[17..19]));
      var o := UtcOffset(s[19] == '-', Number(s[20..22]), Number(s[22..24]));
      if ValidDateTime(d) && ValidOffset(o) then Some((d, o)) else None
  }

  /** Writes a date, time and offset in the form `Parse` reads. */
  function IsoString(d: DateTime, o: UtcOffset): (r: string)
    requires ValidDateTime(d) && ValidOffset(o)
    ensures |r| == 24
  {
    FourDigits(d.year) + "-" + TwoDigits(d.month) + "-" + TwoDigits(d.day) + "T"
      + TwoDigits(d.hour) + ":" + TwoDigits(d.minute) + ":" + TwoDigits(d.second)
      + (if o.negative then "-" else "+") + TwoDigits(o.hours) + TwoDigits(o.minutes)
  }

  /** Where the date fields of the ISO form sit. */
  lemma IsoDateFields(d: DateTime, o: UtcOffset)
    requires ValidDateTime(d) && ValidOffset(o)
    ensures var s := IsoString(d, o);
      && s[0..4] == FourDigits(d.year) && s[4] == '-'
      && s[5..7] == TwoDigits(d.month) && s[7] == '-'
      && s[8..10] == TwoDigits(d.day) && s[10] == 'T'
  {
    var s := IsoString(d, o);
    var date := FourDigits(d.year) + "-" + TwoDigits(d.month) + "-" + TwoDigits(d.day);
    assert s[..10] == date;
    assert s[0..4] == date[0..4] && s[5..7] == date[5..7] && s[8..10] == date[8..10];
  }

  /** Where the time and offset fields of the ISO form sit. */
  lemma IsoTimeFields(d: DateTime, o: UtcOffset)
    requires ValidDateTime(d) && ValidOffset(o)
    ensures var s := IsoString(d, o);
      && s[11..13] == TwoDigits(d.hour) && s[13] == ':'
      && s[14..16] == TwoDigits(d.minute) && s[16] == ':'
      && s[17..19] == TwoDigits(d.second)
      && s[19] == (if o.negative then '-' else '+')
      && s[20..22] == TwoDigits(o.hours) && s[22..24] == TwoDigits(o.minutes)
  {
    var s := IsoString(d, o);
    var time := TwoDigits(d.hour) + ":" + TwoDigits(d.minute) + ":" + TwoDigits(d.second);
    var zone := (if o.negative then "-" else "+") + TwoDigits(o.hours) + TwoDigits(o.minutes);
    assert s[11..] == time + zone;
    assert s[11..13] == (time + zone)[0..2] && s[14..16] == (time + zone)[3..5] && s[17..19] == (time + zone)[6..8];
    assert s[20..22] == (time + zone)[9..11] && s[22..24] == (time + zone)[11..13];
  }

  /** Where each field of the ISO form sits. */
  lemma IsoStringFields(d: DateTime, o: UtcOffset)
    requires ValidDateTime(d) && ValidOffset(o)
    ensures var s := IsoString(d, o);
      && s[0..4] == FourDigits(d.year) && s[4] == '-'
      && s[5..7] == TwoDigits(d.month) && s[7] == '-'
      && s[8..10] == TwoDigits(d.day) && s[10] == 'T'
      && s[11..13] == TwoDigits(d.hour) && s[13] == ':'
      && s[14..16] == TwoDigits(d.minute) && s[16] == ':'
      && s[17..19] == TwoDigits(d.second)
      && s[19] == (if o.negative then '-' else '+')
      && s[20..22] == TwoDigits(o.hours) && s[22..24] == TwoDigits(o.minutes)
  {
    IsoDateFields(d, o);
    IsoTimeFields(d, o);
  }

  /** Every date, time and offset written in the ISO form is read back as itself. */
  lemma ParseIso(d: DateTime, o: UtcOffset)
    requires ValidDateTime(d) && ValidOffset(o)
    ensures Parse(IsoString(d, o)) == Some((d, o))
  {
    var s := IsoString(d, o);
    IsoStringFields(d, o);
    assert HasIsoShape(s);
    NumberFourDigits(d.year);
    NumberTwoDigits(d.month);
    NumberTwoDigits(d.day);
    NumberTwoDigits(d.hour);
    NumberTwoDigits(d.minute);
    NumberTwoDigits(d.second);
    NumberTwoDigits(o.hours);
    NumberTwoDigits(o.minutes);
  }

  /** Writing back the value of two digits gives the same two digits. */
  lemma TwoDigitsNumber(x: string)
    requires |x| == 2 && AllDigits(x)
    ensures Number(x) < 100 && TwoDigits(Number(x)) == x
  {
    assert x[..1][..0] == [];
    var a, b := x[0] as int - '0' as int, x[1] as int - '0' as int;
    assert Number(x[..1]) == a;
    assert Number(x) == a * 10 + b;
    assert (a * 10 + b) / 10 % 10 == a && (a * 10 + b) % 10 == b;
  }

  /** Writing back the value of four digits gives the same four digits. */
  lemma FourDigitsNumber(x: string)
    requires |x| == 4 && AllDigits(x)
    ensures Number(x) < 10000 && FourDigits(Number(x)) == x
  {
    var hi, lo := x[..2], x[2..];
    assert x == hi + lo;
    NumberAppendTwo(hi, lo);
    TwoDigitsNumber(hi);
    TwoDigitsNumber(lo);
    var n := Number(x);
    assert n / 100 == Number(hi) && n % 100 == Number(lo);
    assert n / 100 % 100 == Number(hi);
  }

  /**
   * Every string `Parse` accepts is the ISO form of what it reads, up to
   * the case of the `T` between date and time.
   */
  lemma IsoStringParse(s: string)
    requires Parse(s).Some?
    ensures s[..10] + "T" + s[11..] == IsoString(Parse(s).value.0, Parse(s).value.1)
    ensures s[10] == 'T' ==> s == IsoString(Parse(s).value.0, Parse(s).value.1)
  {
    var (d, o) := Parse(s).value;
    var r := IsoString(d, o);
    var t := s[..10] + "T" + s[11..];
    IsoStringFields(d, o);
    FourDigitsNumber(s[0..4]);
    TwoDigitsNumber(s[5..7]);
    TwoDigitsNumber(s[8..10]);
    TwoDigitsNumber(s[11..13]);
    TwoDigitsNumber(s[14..16]);
    TwoDigitsNumber(s[17..19]);
    TwoDigitsNumber(s[20..22]);
    TwoDigitsNumber(s[22..24]);
    assert |t| == 24 && t[10] == 'T';
    forall i | 0 <= i < 24 && i != 10
      ensures t[i] == s[i]
    {
    }
    forall i | 0 <= i < 24
      ensures t[i] == r[i]
    {
      if i < 4 { assert r[0..4][i] == r[i] && s[0..4][i] == s[i]; }
      else if 5 <= i < 7 { assert r[5..7][i - 5] == r[i] && s[5..7][i - 5] == s[i]; }
      else if 8 <= i < 10 { assert r[8..10][i - 8] == r[i] && s[8..10][i - 8] == s[i]; }
      else if 11 <= i < 13 { assert r[11..13][i - 11] == r[i] && s[11..13][i - 11] == s[i]; }
      else if 14 <= i < 16 { assert r[14..16][i - 14] == r[i] && s[14..16][i - 14] == s[i]; }
      else if 17 <= i < 19 { assert r[17..19][i - 17] == r[i] && s[17..19][i - 17] == s[i]; }
      else if 20 <= i < 22 { assert r[20..22][i - 20] == r[i] && s[20..22][i - 20] == s[i]; }
      else if 22 <= i { assert r[22..24][i - 22] == r[i] && s[22..24][i - 22] == s[i]; }
    }
    if s[10] == 'T' {
      assert forall i :: 0 <= i < 24 ==> s[i] == t[i];
    }
  }

  // ---------- Calendar arithmetic ----------

  function DaysBeforeYear(y: int): nat
    requires y >= 1
  {
    if y == 1 then 0 else DaysBeforeYear(y - 1) + DaysInYear(y - 1)
  }

  function DaysBeforeMonth(y: int, m: int): nat
    requires 1 <= m <= 12
  {
    if m == 1 then 0 else DaysBeforeMonth(y, m - 1) + DaysInMonth(y, m - 1)
  }

  /** The day's ordinal in the proleptic Gregorian calendar: 1 January of year 1 is day 1. */
  function DayNumber(d: DateTime): int
    requires ValidDateTime(d)
  {
    DaysBeforeYear(d.year) + DaysBeforeMonth(d.year, d.month) + d.day
  }

  /** Whole hours from midnight of 1 January of year 1 to the start of `d`'s hour. */
  function HourNumber(d: DateTime): int
    requires ValidDateTime(d)
  {
    (DayNumber(d) - 1) * 24 + d.hour
  }

  /** The months of a year add up to the year. */
  lemma YearOfMonths(y: int)
    ensures DaysBeforeMonth(y, 12) + DaysInMonth(y, 12) == DaysInYear(y)
  {
    var feb := if IsLeapYear(y) then 29 else 28;
    assert DaysBeforeMonth(y, 2) == 31;
    assert DaysBeforeMonth(y, 3) == 31 + feb;
    assert DaysBeforeMonth(y, 4) == 62 + feb;
    assert DaysBeforeMonth(y, 5) == 92 + feb;
    assert DaysBeforeMonth(y, 6) == 123 + feb;
    assert DaysBeforeMonth(y, 7) == 153 + feb;
    assert DaysBeforeMonth(y, 8) == 184 + feb;
    assert DaysBeforeMonth(y, 9) == 215 + feb;
    assert DaysBeforeMonth(y, 10) == 245 + feb;
    assert DaysBeforeMonth(y, 11) == 276 + feb;
    assert DaysBeforeMonth(y, 12) == 306 + feb;
  }

  /**
   * `d - timedelta(hours=7)` on the wall-clock fields: the hour borrows
   * from the day, the day from the month and the month from the year.
   * `None` when the result would fall before year 1 (the subtraction
   * raises an overflow error there).
   */
  function SevenHoursEarlier(d: DateTime): (r: Option<DateTime>)
    requires ValidDateTime(d)
  {
    if d.hour >= 7 then Some(d.(hour := d.hour - 7))
    else if d.day > 1 then Some(d.(day := d.day - 1, hour := d.hour + 17))
    else if d.month > 1 then Some(d.(month := d.month - 1, day := DaysInMonth(d.year, d.month - 1), hour := d.hour + 17))
    else if d.year > 1 then Some(DateTime(d.year - 1, 12, 31, d.hour + 17, d.minute, d.second))
    else None
  }

  /**
   * Moving back by seven hours is right measured on the hour line: the
   * result is a real date and time exactly seven hours before `d`, with
   * minutes and seconds kept, and there is one whenever `d` is at least
   * seven hours after the first hour of year 1.
   */
  lemma SevenHoursEarlierCorrect(d: DateTime)
    requires ValidDateTime(d)
    ensures SevenHoursEarlier(d).Some? <==> HourNumber(d) >= 7
    ensures SevenHoursEarlier(d).Some? ==>
      var e := SevenHoursEarlier(d).value;
      && ValidDateTime(e)
      && HourNumber(e) == HourNumber(d) - 7
      && e.minute == d.minute && e.second == d.second
  {
    if d.hour < 7 && d.day == 1 {
      if d.month > 1 {
        var e := SevenHoursEarlier(d).value;
        assert DayNumber(e) == DayNumber(d) - 1;
      } else if d.year > 1 {
        var e := SevenHoursEarlier(d).value;
        YearOfMonths(d.year - 1);
        assert DayNumber(e) == DayNumber(d) - 1;
      } else {
        assert DayNumber(d) == 1;
      }
    }
  }

  // ---------- Rendering ----------

  /** `strftime('%d-%m-%Y %H:%M:%S')`. */
  function Render(d: DateTime): (r: string)
    requires ValidDateTime(d)
    ensures |r| == 19
  {
    TwoDigits(d.day) + "-" + TwoDigits(d.month) + "-" + FourDigits(d.year) + " "
      + TwoDigits(d.hour) + ":" + TwoDigits(d.minute) + ":" + TwoDigits(d.second)
  }

  /** Every field can be read back from its place in the rendered text. */
  lemma RenderFields(d: DateTime)
    requires ValidDateTime(d)
    ensures var r := Render(d);
      && AllDigits(r[0..2]) && Number(r[0..2]) == d.day && r[2] == '-'
      && AllDigits(r[3..5]) && Number(r[3..5]) == d.month && r[5] == '-'
      && AllDigits(r[6..10]) && Number(r[6..10]) == d.year && r[10] == ' '
      && AllDigits(r[11..13]) && Number(r[11..13]) == d.hour && r[13] == ':'
      && AllDigits(r[14..16]) && Number(r[14..16]) == d.minute && r[16] == ':'
      && AllDigits(r[17..19]) && Number(r[17..19]) == d.second
  {
    var r := Render(d);
    assert r[0..2] == TwoDigits(d.day);
    assert r[3..5] == TwoDigits(d.month);
    assert r[6..10] == FourDigits(d.year) by {
      assert r == TwoDigits(d.day) + "-" + TwoDigits(d.month) + "-" + FourDigits(d.year)
               + (" " + TwoDigits(d.hour) + ":" + TwoDigits(d.minute) + ":" + TwoDigits(d.second));
    }
    assert r[11..13] == TwoDigits(d.hour);
    assert r[14..16] == TwoDigits(d.minute);
    assert r[17..19] == TwoDigits(d.second);
    NumberTwoDigits(d.day);
    NumberTwoDigits(d.month);
    NumberFourDigits(d.year);
    NumberTwoDigits(d.hour);
    NumberTwoDigits(d.minute);
    NumberTwoDigits(d.second);
  }

  /**
   * `formatar_data`: the display form of the time seven hours earlier, or
   * the input itself when it does not parse. `None` stands for the
   * overflow error raised before year 1, which the function does not catch.
   */
  function FormatDate(s: string): (r: Option<string>)
    ensures Parse(s).None? ==> r == Some(s)
  {
    match Parse(s)
    case None => Some(s)
    case Some((d, _)) =>
      match SevenHoursEarlier(d)
      case None => None
      case Some(e) => Some(Render(e))
  }

  /**
   * What `FormatDate` gives for a string that parses: the rendering of a
   * valid date and time seven hours earlier, with minutes and seconds
   * kept; and a value exactly when that time is not before year 1.
   */
  lemma FormatDateParsed(s: string)
    requires Parse(s).Some?
    ensures var d := Parse(s).value.0;
      && (FormatDate(s).Some? <==> HourNumber(d) >= 7)
      && (FormatDate(s).Some? ==>
            exists e :: ValidDateTime(e) && HourNumber(e) == HourNumber(d) - 7
                     && e.minute == d.minute && e.second == d.second
                     && FormatDate(s) == Some(Render(e)))
  {
    var d := Parse(s).value.0;
    SevenHoursEarlierCorrect(d);
    if SevenHoursEarlier(d).Some? {
      var e := SevenHoursEarlier(d).value;
      assert FormatDate(s) == Some(Render(e));
    }
  }

  /** The offset plays no part: two timestamps that differ only in it format alike. */
  lemma OffsetIgnored(s: string, t: string)
    requires Parse(s).Some? && Parse(t).Some?
    requires s[..19] == t[..19]
    ensures FormatDate(s) == FormatDate(t)
  {
    assert s[0..4] == s[..19][0..4] == t[..19][0..4] == t[0..4];
    assert s[5..7] == s[..19][5..7] == t[..19][5..7] == t[5..7];
    assert s[8..10] == s[..19][8..10] == t[..19][8..10] == t[8..10];
    assert s[11..13] == s[..19][11..13] == t[..19][11..13] == t[11..13];
    assert s[14..16] == s[..19][14..16] == t[..19][14..16] == t[14..16];
    assert s[17..19] == s[..19][17..19] == t[..19][17..19] == t[17..19];
  }

  lemma MayIso()
    ensures IsoString(DateTime(2023, 5, 1, 10, 0, 0), UtcOffset(false, 0, 0)) == "2023-05-01T10:00:00+0000"
  {
  }

  lemma MayIsoWithOffset()
    ensures IsoString(DateTime(2023, 5, 1, 10, 0, 0), UtcOffset(true, 4, 0)) == "2023-05-01T10:00:00-0400"
  {
  }

  lemma MayRendered()
    ensures Render(DateTime(2023, 5, 1, 3, 0, 0)) == "01-05-2023 03:00:00"
  {
  }

  lemma LeapDayIso()
    ensures IsoString(DateTime(2024, 3, 1, 2, 30, 15), UtcOffset(false, 0, 0)) == "2024-03-01T02:30:15+0000"
  {
  }

  lemma LeapDayRendered()
    ensures Render(DateTime(2024, 2, 29, 19, 30, 15)) == "29-02-2024 19:30:15"
  {
  }

  lemma NewYearIso()
    ensures IsoString(DateTime(2023, 1, 1, 0, 0, 0), UtcOffset(false, 0, 0)) == "2023-01-01T00:00:00+0000"
  {
  }

  lemma NewYearRendered()
    ensures Render(DateTime(2022, 12, 31, 17, 0, 0)) == "31-12-2022 17:00:00"
  {
  }

  /** Ten o'clock on 1 May 2023 is shown as three o'clock that morning, whatever the offset. */
  lemma FormatDateExample()
    ensures FormatDate("2023-05-01T10:00:00+0000") == Some("01-05-2023 03:00:00")
    ensures FormatDate("2023-05-01T10:00:00-0400") == Some("01-05-2023 03:00:00")
  {
    MayIso();
    MayIsoWithOffset();
    MayRendered();
    ParseIso(DateTime(2023, 5, 1, 10, 0, 0), UtcOffset(false, 0, 0));
    ParseIso(DateTime(2023, 5, 1, 10, 0, 0), UtcOffset(true, 4, 0));
  }

  /** Early on 1 March of a leap year borrows into 29 February. */
  lemma FormatDateLeapBorrow()
    ensures FormatDate("2024-03-01T02:30:15+0000") == Some("29-02-2024 19:30:15")
  {
    LeapDayIso();
    LeapDayRendered();
    ParseIso(DateTime(2024, 3, 1, 2, 30, 15), UtcOffset(false, 0, 0));
  }

  /** Early on 1 January borrows into 31 December of the year before. */
  lemma FormatDateYearBorrow()
    ensures FormatDate("2023-01-01T00:00:00+0000") == Some("31-12-2022 17:00:00")
  {
    NewYearIso();
    NewYearRendered();
    ParseIso(DateTime(2023, 1, 1, 0, 0, 0), UtcOffset(false, 0, 0));
  }

  lemma NoThirtiethOfFebruary(s: string)
    requires s == "2023-02-30T10:00:00+0000"
    ensures Parse(s) == None
  {
    assert s[5..7] == TwoDigits(2) && s[8..10] == TwoDigits(30);
    NumberTwoDigits(2);
    NumberTwoDigits(30);
  }

  /** A day that does not exist, and the placeholders used for missing dates, pass through unchanged. */
  lemma FormatDateUnchanged()
    ensures FormatDate("2023-02-30T10:00:00+0000") == Some("2023-02-30T10:00:00+0000")
    ensures FormatDate("Data não encontrada") == Some("Data não encontrada")
    ensures FormatDate("Datas não encontradas") == Some("Datas não encontradas")
    ensures FormatDate("unknown") == Some("unknown")
    ensures FormatDate("") == Some("")
  {
    NoThirtiethOfFebruary("2023-02-30T10:00:00+0000");
  }
}
