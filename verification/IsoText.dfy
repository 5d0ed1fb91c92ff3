// Reading the two timestamp formats back: the calendar by its closed form, the fields by position.
module IsoText {
  import opened Timestamps

  // ----- the calendar -----

  // 29 February of the years before this one.
  function LeapDaysBefore(year: nat): nat {
    (year + 3) / 4 - (year + 99) / 100 + (year + 399) / 400
  }

  function DaysBefore(year: nat, month: nat): nat
    requires 1 <= month <= 12
  {
    [0, 31, 59, 90, 120, 151, 181, 212, 243, 273, 304, 334][month - 1]
    + if month > 2 && year % 4 == 0 && (year % 100 != 0 || year % 400 == 0) then 1 else 0
  }

  // The number of days since 1 January of the year 0.
  function DayNumber(year: nat, month: nat, day: nat): int
    requires 1 <= month <= 12
  {
    365 * year + LeapDaysBefore(year) + DaysBefore(year, month) + day - 1
  }

  lemma EveryFourth(year: nat)
    ensures (year + 4) / 4 == (year + 3) / 4 + if year % 4 == 0 then 1 else 0
  {
  }

  lemma EveryHundredth(year: nat)
    ensures (year + 100) / 100 == (year + 99) / 100 + if year % 100 == 0 then 1 else 0
    ensures year % 100 == 0 ==> year % 4 == 0
  {
    var q := year / 100;
    assert year == 100 * q + year % 100;
    assert year % 100 == 0 ==> year == 4 * (25 * q);
  }

  lemma EveryFourHundredth(year: nat)
    ensures (year + 400) / 400 == (year + 399) / 400 + if year % 400 == 0 then 1 else 0
    ensures year % 400 == 0 ==> year % 100 == 0
  {
    var q := year / 400;
    assert year == 400 * q + year % 400;
    assert year % 400 == 0 ==> year == 100 * (4 * q);
  }

  lemma NextYear(year: nat)
    ensures LeapDaysBefore(year + 1) == LeapDaysBefore(year) + if IsLeap(year) then 1 else 0
  {
    EveryFourth(year);
    EveryHundredth(year);
    EveryFourHundredth(year);
  }

  lemma NextMonth(year: nat, month: nat)
    requires 1 <= month < 12
    ensures DaysBefore(year, month + 1) == DaysBefore(year, month) + DaysInMonth(year, month)
  {
  }

  lemma NextDayNumber(d: Date)
    requires IsDate(d)
    ensures var e := NextDate(d);
            IsDate(e) && DayNumber(e.year, e.month, e.day) == DayNumber(d.year, d.month, d.day) + 1
  {
    if d.day == DaysInMonth(d.year, d.month) {
      if d.month < 12 {
        NextMonth(d.year, d.month);
      } else {
        NextYear(d.year);
        hide LeapDaysBefore;
      }
    }
  }

  // The date counted day by day from the start is the Gregorian one.
  lemma {:induction false} CivilDateIs(day: nat)
    ensures var d := CivilDate(day); DayNumber(d.year, d.month, d.day) == day
  {
    if day > 0 {
      CivilDateIs(day - 1);
      NextDayNumber(CivilDate(day - 1));
      hide DayNumber, NextDate;
    }
  }

  // ----- the fields -----

  function Number(s: string): nat {
    if s == "" then 0
    else
      var c := s[|s| - 1];
      10 * Number(s[..|s| - 1]) + if '0' <= c <= '9' then c as int - '0' as int else 0
  }

  lemma {:induction false} NumberOfPad(n: nat, w: nat)
    requires n < Pow10(w)
    ensures Number(Pad(n, w)) == n
  {
    if w > 0 {
      NumberOfPad(n / 10, w - 1);
      var s := Pad(n, w);
      assert s[..w - 1] == Pad(n / 10, w - 1) && s[w - 1] == Digit(n % 10);
    }
  }

  lemma SmallPowers()
    ensures Pow10(2) == 100 && Pow10(3) == 1000 && Pow10(4) == 10_000
  {
    assert Pow10(1) == 10;
  }

  // YYYY-MM-DD
  ghost predicate ShowsDate(s: string, day: nat) {
    && |s| == 10 && s[4] == '-' && s[7] == '-'
    && 1 <= Number(s[5..7]) <= 12
    && DayNumber(Number(s[..4]), Number(s[5..7]), Number(s[8..10])) == day
  }

  // HH:MM:SS
  ghost predicate ShowsClock(s: string, second: nat) {
    && |s| == 8 && s[2] == ':' && s[5] == ':'
    && Number(s[3..5]) < 60 && Number(s[6..8]) < 60
    && 3600 * Number(s[..2]) + 60 * Number(s[3..5]) + Number(s[6..8]) == second
  }

  lemma CutDate(y: string, m: string, d: string)
    requires |y| == 4 && |m| == 2 && |d| == 2
    ensures var s := y + "-" + (m + "-" + d);
            |s| == 10 && s[4] == '-' && s[7] == '-' && s[..4] == y && s[5..7] == m && s[8..10] == d
  {
  }

  lemma FieldsRead(d: Date)
    requires IsDate(d) && d.year <= 9999
    ensures Number(Pad(d.year, 4)) == d.year && Number(Pad(d.month, 2)) == d.month && Number(Pad(d.day, 2)) == d.day
  {
    SmallPowers();
    assert d.month < 100 && d.day < 100;
    hide IsDate, Number, Pad;
    NumberOfPad(d.year, 4);
    NumberOfPad(d.month, 2);
    NumberOfPad(d.day, 2);
  }

  lemma DateIsShown(day: nat)
    requires CivilDate(day).year <= 9999
    ensures ShowsDate(DateText(day), day)
  {
    var d := CivilDate(day);
    CivilDateIs(day);
    assert 1 <= d.month <= 12;
    FieldsRead(d);
    hide CivilDate, IsDate, DayNumber, Number, Pad;
    CutDate(Pad(d.year, 4), Pad(d.month, 2), Pad(d.day, 2));
  }

  lemma ClockIsShown(second: nat)
    requires second < 86_400
    ensures ShowsClock(ClockText(second), second)
  {
    var s := ClockText(second);
    SmallPowers();
    NumberOfPad(second / 3600, 2);
    NumberOfPad(second / 60 % 60, 2);
    NumberOfPad(second % 60, 2);
    hide Number, Pad;
    assert s[..2] == Pad(second / 3600, 2) && s[3..5] == Pad(second / 60 % 60, 2) && s[6..8] == Pad(second % 60, 2);
    SecondsSplit(second);
  }

  // Read by position, the ISO text of an instant gives back the instant, to the millisecond.
  lemma IsoReadsBack(t: Instant)
    requires Printable(t)
    ensures var s := Iso(t);
            && |s| == 24 && s[10] == 'T' && s[19] == '.' && s[23] == 'Z'
            && exists day: nat, second: nat ::
                 && ShowsDate(s[..10], day) && ShowsClock(s[11..19], second)
                 && t == (86_400 * day + second) * 1000 + Number(s[20..23])
  {
    var s, day, second := Iso(t), Day(t), t % MS_PER_DAY / 1000;
    SmallPowers();
    NumberOfPad(t % 1000, 3);
    DateIsShown(day);
    ClockIsShown(second);
    SplitInstant(t);
    hide Number, Pad, ShowsDate, ShowsClock, DateText, ClockText;
    CutIso(DateText(day), ClockText(second), Pad(t % 1000, 3));
  }

  lemma CutIso(d: string, c: string, ms: string)
    requires |d| == 10 && |c| == 8 && |ms| == 3
    ensures var s := d + ("T" + (c + ("." + ms + "Z")));
            && |s| == 24 && s[10] == 'T' && s[19] == '.' && s[23] == 'Z'
            && s[..10] == d && s[11..19] == c && s[20..23] == ms
  {
  }

  // And SQLite's text, to the second.
  lemma SqlReadsBack(t: Instant)
    requires Printable(t)
    ensures var s := Sql(t);
            && |s| == 19 && s[10] == ' '
            && exists day: nat, second: nat ::
                 ShowsDate(s[..10], day) && ShowsClock(s[11..], second) && t / 1000 == 86_400 * day + second
  {
    var s, day, second := Sql(t), Day(t), t % MS_PER_DAY / 1000;
    DateIsShown(day);
    ClockIsShown(second);
    SplitInstant(t);
    hide ShowsDate, ShowsClock, DateText, ClockText;
    assert s[..10] == DateText(day) && s[11..] == ClockText(second);
  }
}
