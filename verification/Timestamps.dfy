// Time in the broker. Rows hold timestamps as text and SQLite compares them as text, in two
// formats: `YYYY-MM-DDTHH:MM:SS.mmmZ` (Date.toISOString) and `YYYY-MM-DD HH:MM:SS` (datetime('now', ...)).
//
// An Instant counts milliseconds from 0000-01-01T00:00Z, the first date SQLite can name.
module Timestamps {

  type Instant = nat

  const MS_PER_DAY: nat := 86_400_000

  // ----- the calendar -----

  datatype Date = Date(year: nat, month: nat, day: nat)

  predicate IsLeap(year: nat) {
    year % 4 == 0 && (year % 100 != 0 || year % 400 == 0)
  }

  function DaysInMonth(year: nat, month: nat): nat {
    if month == 2 then (if IsLeap(year) then 29 else 28)
    else if month in {4, 6, 9, 11} then 30
    else 31
  }

  predicate IsDate(d: Date) {
    1 <= d.month <= 12 && 1 <= d.day <= DaysInMonth(d.year, d.month)
  }

  function NextDate(d: Date): Date {
    if d.day < DaysInMonth(d.year, d.month) then d.(day := d.day + 1)
    else if d.month < 12 then Date(d.year, d.month + 1, 1)
    else Date(d.year + 1, 1, 1)
  }

  // The Gregorian date of a day number.
  function CivilDate(day: nat): (d: Date)
    ensures IsDate(d)
  {
    if day == 0 then Date(0, 1, 1) else NextDate(CivilDate(day - 1))
  }

  predicate DateBefore(a: Date, b: Date) {
    a.year < b.year || (a.year == b.year && (a.month < b.month || (a.month == b.month && a.day < b.day)))
  }

  lemma {:induction false} CivilDateGrows(a: nat, b: nat)
    requires a < b
    ensures DateBefore(CivilDate(a), CivilDate(b))
    decreases b
  {
    assert DateBefore(CivilDate(b - 1), CivilDate(b));
    if a < b - 1 {
      CivilDateGrows(a, b - 1);
    }
  }

  function Day(t: Instant): nat { t / MS_PER_DAY }

  // Four-digit years: the range in which both formats are fixed-width.
  predicate Printable(t: Instant) {
    CivilDate(Day(t)).year <= 9999
  }

  lemma PrintableDown(a: Instant, b: Instant)
    requires a <= b && Printable(b)
    ensures Printable(a)
  {
    assert Day(a) <= Day(b);
    if Day(a) < Day(b) {
      CivilDateGrows(Day(a), Day(b));
    }
  }

  // ----- text -----

  // SQLite's BINARY collation.
  predicate TextLess(a: string, b: string) {
    if a == [] then b != []
    else b != [] && (a[0] < b[0] || (a[0] == b[0] && TextLess(a[1..], b[1..])))
  }

  lemma {:induction false} TextLessAfterPrefix(a: string, b: string, s: string, t: string)
    requires |a| == |b|
    ensures TextLess(a + s, b + t) <==> TextLess(a, b) || (a == b && TextLess(s, t))
    decreases a
  {
    if a == [] {
      assert a + s == s && b + t == t;
    } else {
      assert (a + s)[1..] == a[1..] + s && (b + t)[1..] == b[1..] + t;
      TextLessAfterPrefix(a[1..], b[1..], s, t);
      assert a == [a[0]] + a[1..] && b == [b[0]] + b[1..];
    }
  }

  function Digit(n: nat): char
    requires n < 10
  {
    ['0', '1', '2', '3', '4', '5', '6', '7', '8', '9'][n]
  }

  function Pow10(w: nat): (p: nat)
    ensures p >= 1
  {
    if w == 0 then 1 else 10 * Pow10(w - 1)
  }

  // n in exactly w decimal digits.
  function Pad(n: nat, w: nat): (s: string)
    ensures |s| == w
  {
    if w == 0 then "" else Pad(n / 10, w - 1) + [Digit(n % 10)]
  }

  lemma {:induction false} PadOrder(a: nat, b: nat, w: nat)
    requires a < Pow10(w) && b < Pow10(w)
    ensures TextLess(Pad(a, w), Pad(b, w)) <==> a < b
    ensures Pad(a, w) == Pad(b, w) <==> a == b
  {
    if w > 0 {
      PadOrder(a / 10, b / 10, w - 1);
      var p, q, s, t := Pad(a / 10, w - 1), Pad(b / 10, w - 1), [Digit(a % 10)], [Digit(b % 10)];
      TextLessAfterPrefix(p, q, s, t);
      SameSplit(p, q, s, t);
      DigitOrder(a % 10, b % 10);
      LastDigit(a, b);
    }
  }

  lemma DigitOrder(a: nat, b: nat)
    requires a < 10 && b < 10
    ensures TextLess([Digit(a)], [Digit(b)]) <==> a < b
    ensures [Digit(a)] == [Digit(b)] <==> a == b
  {
    assert [Digit(a)][1..] == [] && [Digit(b)][1..] == [];
  }

  lemma LastDigit(a: nat, b: nat)
    ensures a < b <==> a / 10 < b / 10 || (a / 10 == b / 10 && a % 10 < b % 10)
    ensures a == b <==> a / 10 == b / 10 && a % 10 == b % 10
  {
  }

  // A fixed-width field and its separator, then the rest: compared like the pair (number, rest).
  lemma FieldOrder(a: nat, b: nat, w: nat, sep: string, s: string, t: string)
    requires a < Pow10(w) && b < Pow10(w)
    ensures TextLess(Pad(a, w) + sep + s, Pad(b, w) + sep + t) <==> a < b || (a == b && TextLess(s, t))
    ensures |s| == |t| ==> (Pad(a, w) + sep + s == Pad(b, w) + sep + t <==> a == b && s == t)
  {
    hide TextLess, Pad;
    PadOrder(a, b, w);
    PrefixOrder(Pad(a, w), Pad(b, w), sep, s, t);
  }

  lemma PrefixOrder(x: string, y: string, sep: string, s: string, t: string)
    requires |x| == |y|
    ensures TextLess(x + sep + s, y + sep + t) <==> TextLess(x, y) || (x == y && TextLess(s, t))
    ensures x + sep + s == y + sep + t <==> x == y && s == t
  {
    TextLessAfterPrefix(x, y, sep, sep);
    TextIrreflexive(sep);
    SameSplit(x, y, sep, sep);
    TextLessAfterPrefix(x + sep, y + sep, s, t);
    SameSplit(x + sep, y + sep, s, t);
  }

  lemma SameSplit(p: string, q: string, s: string, t: string)
    requires |p| == |q|
    ensures p + s == q + t <==> p == q && s == t
  {
    if p + s == q + t {
      assert p == (p + s)[..|p|] && q == (q + t)[..|q|];
      assert s == (p + s)[|p|..] && t == (q + t)[|q|..];
    }
  }

  lemma {:induction false} TextIrreflexive(a: string)
    ensures !TextLess(a, a)
    decreases a
  {
    if a != [] {
      TextIrreflexive(a[1..]);
    }
  }

  // Text order is total, so sorting by it is well defined.
  lemma {:induction false} TextNotLessTransitive(a: string, b: string, c: string)
    requires !TextLess(b, a) && !TextLess(c, b)
    ensures !TextLess(c, a)
    decreases a
  {
    if a != [] && b != [] && c != [] {
      if a[0] == b[0] && b[0] == c[0] {
        TextNotLessTransitive(a[1..], b[1..], c[1..]);
      }
    }
  }

  lemma {:induction false} TextAsymmetric(a: string, b: string)
    requires TextLess(a, b)
    ensures !TextLess(b, a)
    decreases a
  {
    if a != [] && a[0] == b[0] {
      TextAsymmetric(a[1..], b[1..]);
    }
  }

  function DateText(day: nat): (s: string)
    ensures |s| == 10
  {
    var d := CivilDate(day);
    Pad(d.year, 4) + "-" + (Pad(d.month, 2) + "-" + Pad(d.day, 2))
  }

  function ClockText(second: nat): (s: string)
    ensures |s| == 8
  {
    Pad(second / 3600, 2) + ":" + (Pad(second / 60 % 60, 2) + ":" + Pad(second % 60, 2))
  }

  // new Date(t).toISOString()
  function Iso(t: Instant): string {
    DateText(Day(t)) + ("T" + (ClockText(t % MS_PER_DAY / 1000) + ("." + Pad(t % 1000, 3) + "Z")))
  }

  // datetime(t): to the second, and with a space where the ISO form has a 'T'.
  function Sql(t: Instant): string {
    DateText(Day(t)) + (" " + ClockText(t % MS_PER_DAY / 1000))
  }

  lemma DateTextOrder(a: nat, b: nat)
    requires CivilDate(a).year <= 9999 && CivilDate(b).year <= 9999
    ensures TextLess(DateText(a), DateText(b)) <==> a < b
    ensures DateText(a) == DateText(b) <==> a == b
  {
    var d, e := CivilDate(a), CivilDate(b);
    assert Pow10(4) == 10_000 && Pow10(2) == 100 by { assert Pow10(1) == 10; assert Pow10(3) == 1000; }
    PadOrder(d.day, e.day, 2);
    FieldOrder(d.month, e.month, 2, "-", Pad(d.day, 2), Pad(e.day, 2));
    FieldOrder(d.year, e.year, 4, "-", Pad(d.month, 2) + "-" + Pad(d.day, 2), Pad(e.month, 2) + "-" + Pad(e.day, 2));
    if a < b {
      CivilDateGrows(a, b);
    } else if b < a {
      CivilDateGrows(b, a);
    }
  }

  lemma ClockTextOrder(a: nat, b: nat)
    requires a < 86_400 && b < 86_400
    ensures TextLess(ClockText(a), ClockText(b)) <==> a < b
    ensures ClockText(a) == ClockText(b) <==> a == b
  {
    assert Pow10(2) == 100 by { assert Pow10(1) == 10; }
    PadOrder(a % 60, b % 60, 2);
    FieldOrder(a / 60 % 60, b / 60 % 60, 2, ":", Pad(a % 60, 2), Pad(b % 60, 2));
    FieldOrder(a / 3600, b / 3600, 2, ":",
               Pad(a / 60 % 60, 2) + ":" + Pad(a % 60, 2), Pad(b / 60 % 60, 2) + ":" + Pad(b % 60, 2));
    SecondsSplit(a);
    SecondsSplit(b);
  }

  lemma SecondsSplit(a: nat)
    ensures a == a / 3600 * 3600 + a / 60 % 60 * 60 + a % 60
  {
    assert a / 3600 == a / 60 / 60;
  }

  // Section 5.1 of RFC 3339: fixed-width ISO text orders like time.
  lemma IsoOrder(a: Instant, b: Instant)
    requires Printable(a) && Printable(b)
    ensures TextLess(Iso(a), Iso(b)) <==> a < b
  {
    var x, y := a % MS_PER_DAY, b % MS_PER_DAY;
    var za, zb := "." + Pad(a % 1000, 3) + "Z", "." + Pad(b % 1000, 3) + "Z";
    assert Pow10(3) == 1000 by { assert Pow10(2) == 100; assert Pow10(1) == 10; }
    assert TextLess(za, zb) <==> a % 1000 < b % 1000 by {
      FieldOrder(a % 1000, b % 1000, 3, "Z", "", "");
      TextLessAfterPrefix(".", ".", Pad(a % 1000, 3) + "Z" + "", Pad(b % 1000, 3) + "Z" + "");
      TextIrreflexive(".");
      assert za == "." + (Pad(a % 1000, 3) + "Z" + "") && zb == "." + (Pad(b % 1000, 3) + "Z" + "");
    }
    ClockTextOrder(x / 1000, y / 1000);
    TextLessAfterPrefix(ClockText(x / 1000), ClockText(y / 1000), za, zb);
    TextLessAfterPrefix("T", "T", ClockText(x / 1000) + za, ClockText(y / 1000) + zb);
    TextIrreflexive("T");
    DateTextOrder(Day(a), Day(b));
    TextLessAfterPrefix(DateText(Day(a)), DateText(Day(b)),
                        "T" + (ClockText(x / 1000) + za), "T" + (ClockText(y / 1000) + zb));
    SplitInstant(a);
    SplitInstant(b);
  }

  lemma SplitInstant(a: Instant)
    ensures a == Day(a) * MS_PER_DAY + a % MS_PER_DAY / 1000 * 1000 + a % 1000
  {
    assert a == a / MS_PER_DAY * MS_PER_DAY + a % MS_PER_DAY;
    var x := a % MS_PER_DAY;
    assert a == (a / MS_PER_DAY * 86_400) * 1000 + x;
    assert x % 1000 == a % 1000;
  }

  // ----- the mixed comparisons -----

  // `stamp < datetime(cutoff)`, the test of the message TTL purge and of the dormant purge.
  predicate BeforeCutoff(stamp: Instant, cutoff: Instant) {
    TextLess(Iso(stamp), Sql(cutoff))
  }

  // `stamp > datetime(cutoff)`, the test of the flush window.
  predicate AfterCutoff(stamp: Instant, cutoff: Instant) {
    TextLess(Sql(cutoff), Iso(stamp))
  }

  // 'T' sorts after ' ', so on one and the same date the ISO text is always the later one: both
  // tests see only the date.
  lemma MixedOrder(stamp: Instant, cutoff: Instant)
    requires Printable(stamp) && Printable(cutoff)
    ensures BeforeCutoff(stamp, cutoff) <==> Day(stamp) < Day(cutoff)
    ensures AfterCutoff(stamp, cutoff) <==> Day(cutoff) <= Day(stamp)
  {
    var s := "T" + (ClockText(stamp % MS_PER_DAY / 1000) + ("." + Pad(stamp % 1000, 3) + "Z"));
    var c := " " + ClockText(cutoff % MS_PER_DAY / 1000);
    DateTextOrder(Day(stamp), Day(cutoff));
    DateTextOrder(Day(cutoff), Day(stamp));
    TextLessAfterPrefix(DateText(Day(stamp)), DateText(Day(cutoff)), s, c);
    TextLessAfterPrefix(DateText(Day(cutoff)), DateText(Day(stamp)), c, s);
    assert s[0] == 'T' && c[0] == ' ';
    assert !TextLess(s, c) && TextLess(c, s);
  }

  // Dates lag instants by less than a day.
  lemma DaySlack(stamp: Instant, now: Instant, age: nat)
    requires age <= now && stamp <= now
    ensures now - stamp <= age ==> Day(stamp) >= Day(now - age)
    ensures now - stamp >= age + MS_PER_DAY ==> Day(stamp) < Day(now - age)
  {
    if now - stamp >= age + MS_PER_DAY {
      assert Day(stamp) + 1 == Day(stamp + MS_PER_DAY);
    }
  }

  // The slack of a cutoff `age` before now, in both directions, and why one day is the exact slack:
  // the verdict at a given age depends on the time of day.
  lemma CutoffSlack(stamp: Instant, now: Instant, age: nat)
    requires age <= now && stamp <= now && Printable(now)
    ensures now - stamp <= age ==> !BeforeCutoff(stamp, now - age) && AfterCutoff(stamp, now - age)
    ensures now - stamp >= age + MS_PER_DAY ==> BeforeCutoff(stamp, now - age) && !AfterCutoff(stamp, now - age)
    ensures BeforeCutoff(stamp, now - age) <==> Day(stamp) < Day(now - age)
    ensures AfterCutoff(stamp, now - age) <==> Day(now - age) <= Day(stamp)
  {
    PrintableDown(stamp, now);
    PrintableDown(now - age, now);
    MixedOrder(stamp, now - age);
    DaySlack(stamp, now, age);
  }

  // One millisecond past the age is enough just after midnight; one millisecond short of a whole
  // extra day is not enough just before midnight.
  lemma CutoffSlackIsSharp(midnight: nat, age: nat)
    requires midnight > 0 && midnight % MS_PER_DAY == 0 && Printable(midnight + MS_PER_DAY + age)
    ensures var stamp, now := midnight - 1, midnight + age;
            now - stamp == age + 1 && BeforeCutoff(stamp, now - age)
    ensures var stamp, now := midnight, midnight + MS_PER_DAY - 1 + age;
            now - stamp == age + MS_PER_DAY - 1 && !BeforeCutoff(stamp, now - age)
  {
    hide TextLess, Iso, Sql;
    var late := midnight + MS_PER_DAY + age;
    PrintableDown(midnight - 1, late);
    PrintableDown(midnight, late);
    PrintableDown(midnight + MS_PER_DAY - 1, late);
    MixedOrder(midnight - 1, midnight);
    MixedOrder(midnight, midnight + MS_PER_DAY - 1);
    AroundMidnight(midnight);
  }

  lemma AroundMidnight(midnight: nat)
    requires midnight > 0 && midnight % MS_PER_DAY == 0
    ensures Day(midnight - 1) < Day(midnight) == Day(midnight + MS_PER_DAY - 1)
  {
    DayOf(midnight / MS_PER_DAY, midnight);
    DayOf(midnight / MS_PER_DAY, midnight + MS_PER_DAY - 1);
    DayOf(midnight / MS_PER_DAY - 1, midnight - 1);
  }

  lemma DayOf(day: nat, t: Instant)
    requires day * MS_PER_DAY <= t < (day + 1) * MS_PER_DAY
    ensures Day(t) == day
  {
  }
}
