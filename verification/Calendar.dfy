/**
 The two texts a UTC instant has in the capture index: SQLite's `datetime('now')` for what is stored,
 RFC 3339 for what it is compared with. Instants are seconds since 0000-01-01T00:00:00Z.
 */
module Calendar {

  const DAY: nat := 86400

  const HOUR: nat := 3600

  datatype Date = Date(year: nat, month: nat, day: nat)

  predicate Leap(year: nat) {
    year % 4 == 0 && (year % 100 != 0 || year % 400 == 0)
  }

  function DaysIn(year: nat, month: nat): nat {
    if month == 2 then (if Leap(year) then 29 else 28)
    else if month in {4, 6, 9, 11} then 30
    else 31
  }

  function Next(d: Date): Date {
    if d.day < DaysIn(d.year, d.month) then d.(day := d.day + 1)
    else if d.month < 12 then Date(d.year, d.month + 1, 1)
    else Date(d.year + 1, 1, 1)
  }

  /** The date `n` days after 0000-01-01. */
  function DateOf(n: nat): (d: Date)
    ensures 1 <= d.month <= 12 && 1 <= d.day <= 31
  {
    if n == 0 then Date(0, 1, 1) else Next(DateOf(n - 1))
  }

  predicate Before(a: Date, b: Date) {
    a.year < b.year || (a.year == b.year && (a.month < b.month || (a.month == b.month && a.day < b.day)))
  }

  lemma {:induction false} DatesAscend(m: nat, n: nat)
    requires m < n
    ensures Before(DateOf(m), DateOf(n))
  {
    if m < n - 1 {
      DatesAscend(m, n - 1);
    }
  }

  // Text

  /** Byte-wise comparison, SQLite's order on text. */
  predicate TextLess(a: string, b: string) {
    if b == "" then false
    else if a == "" then true
    else if a[0] != b[0] then a[0] < b[0]
    else TextLess(a[1..], b[1..])
  }

  lemma {:induction false} TextLessAppend(a: string, b: string, x: string, y: string)
    requires |a| == |b|
    ensures TextLess(a + x, b + y) <==> TextLess(a, b) || (a == b && TextLess(x, y))
  {
    if a == "" {
      assert a + x == x && b + y == y;
    } else {
      TextLessAppend(a[1..], b[1..], x, y);
      assert (a + x)[1..] == a[1..] + x && (b + y)[1..] == b[1..] + y;
      assert a == [a[0]] + a[1..] && b == [b[0]] + b[1..];
    }
  }

  function Digit(n: nat): char
    requires n < 10
  {
    '0' + n as char
  }

  function Two(n: nat): (s: string)
    requires n < 100
    ensures |s| == 2
  {
    [Digit(n / 10), Digit(n % 10)]
  }

  lemma {:induction false} TwoInOrder(m: nat, n: nat)
    requires m < 100 && n < 100
    ensures TextLess(Two(m), Two(n)) <==> m < n
    ensures Two(m) == Two(n) <==> m == n
  {
    var a, b := Two(m), Two(n);
    assert a[1..] == [a[1]] && b[1..] == [b[1]] && a[1..][1..] == "" && b[1..][1..] == "";
    assert TextLess(a[1..], b[1..]) <==> a[1] < b[1];
  }

  function DateText(d: Date): (s: string)
    requires d.year <= 9999 && d.month < 100 && d.day < 100
    ensures |s| == 10
  {
    Two(d.year / 100) + (Two(d.year % 100) + ("-" + (Two(d.month) + ("-" + Two(d.day)))))
  }

  lemma {:induction false} DateTextInOrder(c: Date, d: Date)
    requires c.year <= 9999 && c.month < 100 && c.day < 100
    requires d.year <= 9999 && d.month < 100 && d.day < 100
    ensures TextLess(DateText(c), DateText(d)) <==> Before(c, d)
    ensures DateText(c) == DateText(d) <==> c == d
  {
    DayTextInOrder(c, d);
    MonthTextInOrder(c, d);
    var cy, dy := Two(c.year % 100), Two(d.year % 100);
    var ct, dt := "-" + (Two(c.month) + ("-" + Two(c.day))), "-" + (Two(d.month) + ("-" + Two(d.day)));
    TwoInOrder(c.year / 100, d.year / 100);
    TwoInOrder(c.year % 100, d.year % 100);
    TextLessAppend(cy, dy, ct, dt);
    TextLessAppend(Two(c.year / 100), Two(d.year / 100), cy + ct, dy + dt);
    assert c.year == 100 * (c.year / 100) + c.year % 100 && d.year == 100 * (d.year / 100) + d.year % 100;
    SplitEqual(cy, ct, dy, dt);
    SplitEqual(Two(c.year / 100), cy + ct, Two(d.year / 100), dy + dt);
  }

  lemma {:induction false} SplitEqual(a: string, x: string, b: string, y: string)
    requires |a| == |b|
    ensures a + x == b + y <==> a == b && x == y
  {
    if a + x == b + y {
      assert (a + x)[..|a|] == a && (b + y)[..|b|] == b && (a + x)[|a|..] == x && (b + y)[|b|..] == y;
    }
  }

  lemma {:induction false} DayTextInOrder(c: Date, d: Date)
    requires c.day < 100 && d.day < 100
    ensures TextLess("-" + Two(c.day), "-" + Two(d.day)) <==> c.day < d.day
    ensures "-" + Two(c.day) == "-" + Two(d.day) <==> c.day == d.day
  {
    TwoInOrder(c.day, d.day);
    TextLessAppend("-", "-", Two(c.day), Two(d.day));
    SplitEqual("-", Two(c.day), "-", Two(d.day));
    assert !TextLess("-", "-");
  }

  lemma {:induction false} MonthTextInOrder(c: Date, d: Date)
    requires c.month < 100 && c.day < 100 && d.month < 100 && d.day < 100
    ensures var a, b := "-" + (Two(c.month) + ("-" + Two(c.day))), "-" + (Two(d.month) + ("-" + Two(d.day)));
            (TextLess(a, b) <==> c.month < d.month || (c.month == d.month && c.day < d.day))
            && (a == b <==> c.month == d.month && c.day == d.day)
  {
    var x, y := "-" + Two(c.day), "-" + Two(d.day);
    DayTextInOrder(c, d);
    TwoInOrder(c.month, d.month);
    TextLessAppend(Two(c.month), Two(d.month), x, y);
    TextLessAppend("-", "-", Two(c.month) + x, Two(d.month) + y);
    SplitEqual(Two(c.month), x, Two(d.month), y);
    SplitEqual("-", Two(c.month) + x, "-", Two(d.month) + y);
    assert !TextLess("-", "-");
  }

  // Instants

  /** RFC 3339 writes years with four digits. */
  predicate Representable(t: nat) {
    DateOf(t / DAY).year <= 9999
  }

  lemma {:induction false} RepresentableBefore(s: nat, t: nat)
    requires s <= t && Representable(t)
    ensures Representable(s)
  {
    if s / DAY < t / DAY {
      DatesAscend(s / DAY, t / DAY);
    }
  }

  type Instant = t: nat | Representable(t) witness 0

  function Clock(t: nat): string {
    var s := t % DAY;
    Two(s / HOUR) + ":" + Two(s % HOUR / 60) + ":" + Two(s % 60)
  }

  /** What `datetime('now')` stores. */
  function StoredText(t: Instant): string {
    assert Representable(t);
    DateText(DateOf(t / DAY)) + (" " + Clock(t))
  }

  /** What a bound is formatted as. */
  function BoundText(t: Instant): string {
    assert Representable(t);
    DateText(DateOf(t / DAY)) + ("T" + (Clock(t) + "Z"))
  }

  /** The separators differ, so comparing the texts compares UTC days and never finds equality. */
  lemma {:induction false} TextComparesDays(stored: Instant, bound: Instant)
    ensures TextLess(StoredText(stored), BoundText(bound)) <==> stored / DAY <= bound / DAY
    ensures StoredText(stored) != BoundText(bound)
  {
    assert Representable(stored) && Representable(bound);
    var c, d := DateOf(stored / DAY), DateOf(bound / DAY);
    var x, y := " " + Clock(stored), "T" + (Clock(bound) + "Z");
    TextLessAppend(DateText(c), DateText(d), x, y);
    DateTextInOrder(c, d);
    SplitEqual(DateText(c), x, DateText(d), y);
    assert x[0] == ' ' && y[0] == 'T';
    if stored / DAY < bound / DAY {
      DatesAscend(stored / DAY, bound / DAY);
    } else if bound / DAY < stored / DAY {
      DatesAscend(bound / DAY, stored / DAY);
    }
  }

  // The Gregorian calendar, by its numbers

  /** The days before a year. */
  function YearStart(year: nat): nat {
    365 * year + (year + 3) / 4 - (year + 99) / 100 + (year + 399) / 400
  }

  /** The days of a year before a month, 13 standing for its end. */
  function MonthStart(leap: bool, month: nat): nat {
    var days :=
      if month == 1 then 0 else if month == 2 then 31 else if month == 3 then 59 else if month == 4 then 90
      else if month == 5 then 120 else if month == 6 then 151 else if month == 7 then 181 else if month == 8 then 212
      else if month == 9 then 243 else if month == 10 then 273 else if month == 11 then 304
      else if month == 12 then 334 else 365;
    if month > 2 && leap then days + 1 else days
  }

  lemma {:induction false} Fours(year: nat)
    ensures (year + 4) / 4 == (year + 3) / 4 + if year % 4 == 0 then 1 else 0
  {
  }

  lemma {:induction false} Hundreds(year: nat)
    ensures (year + 100) / 100 == (year + 99) / 100 + if year % 100 == 0 then 1 else 0
  {
  }

  lemma {:induction false} FourHundreds(year: nat)
    ensures (year + 400) / 400 == (year + 399) / 400 + if year % 400 == 0 then 1 else 0
  {
  }

  /** Of the three divisors each divides the next one. */
  lemma {:induction false} Divides(year: nat)
    ensures year % 400 == 0 ==> year % 100 == 0
    ensures year % 100 == 0 ==> year % 4 == 0
  {
    var q, r := year / 400, year / 100;
    assert year % 400 == 0 ==> year == 100 * (4 * q);
    assert year % 100 == 0 ==> year == 4 * (25 * r);
  }

  /** A year has 366 days exactly when it is a leap year. */
  lemma {:induction false} LeapYears(year: nat)
    ensures YearStart(year + 1) == YearStart(year) + if Leap(year) then 366 else 365
  {
    Fours(year);
    Hundreds(year);
    FourHundreds(year);
    Divides(year);
  }

  lemma {:induction false} MonthLengths(year: nat, month: nat)
    requires 1 <= month <= 12
    ensures MonthStart(Leap(year), month + 1) == MonthStart(Leap(year), month) + DaysIn(year, month)
  {
  }

  lemma {:induction false} DatesOfYear(year: nat, start: nat, month: nat, day: nat)
    requires DateOf(start) == Date(year, 1, 1) && 1 <= month <= 12 && 1 <= day <= DaysIn(year, month)
    ensures DateOf(start + MonthStart(Leap(year), month) + day - 1) == Date(year, month, day)
    decreases month, day
  {
    if day > 1 {
      DatesOfYear(year, start, month, day - 1);
    } else if month > 1 {
      MonthLengths(year, month - 1);
      DatesOfYear(year, start, month - 1, DaysIn(year, month - 1));
    }
  }

  lemma {:induction false} YearBegins(year: nat)
    ensures DateOf(YearStart(year)) == Date(year, 1, 1)
  {
    if year > 0 {
      YearBegins(year - 1);
      YearEnds(year - 1, YearStart(year - 1));
      LeapYears(year - 1);
    }
  }

  lemma {:induction false} YearEnds(year: nat, start: nat)
    requires DateOf(start) == Date(year, 1, 1)
    ensures DateOf(start + if Leap(year) then 366 else 365) == Date(year + 1, 1, 1)
  {
    DatesOfYear(year, start, 12, 31);
  }

  /** Every date of the calendar, from the first of January of the year 0 on, has the number of its day. */
  lemma {:induction false} GregorianDates(year: nat, month: nat, day: nat)
    requires 1 <= month <= 12 && 1 <= day
    requires MonthStart(Leap(year), month) + day <= MonthStart(Leap(year), month + 1)
    ensures DateOf(YearStart(year) + MonthStart(Leap(year), month) + day - 1) == Date(year, month, day)
  {
    MonthLengths(year, month);
    YearBegins(year);
    DatesOfYear(year, YearStart(year), month, day);
  }

  lemma {:induction false} YearOrder(n: nat, year: nat)
    ensures DateOf(n).year < year <==> n < YearStart(year)
  {
    YearBegins(year);
    if n < YearStart(year) {
      DatesAscend(n, YearStart(year));
    } else if n > YearStart(year) {
      DatesAscend(YearStart(year), n);
    }
  }

  /** The years of four digits end after 3652425 days. */
  lemma {:induction false} FourDigitYears(t: nat)
    ensures Representable(t) <==> t / 86_400 < 3_652_425
  {
    YearOrder(t / DAY, 10000);
  }

  // The texts, read as numbers

  function Value(s: string): int {
    if s == "" then 0 else Value(s[..|s| - 1]) * 10 + (s[|s| - 1] as int - '0' as int)
  }

  lemma {:induction false} ValueOfTwo(n: nat)
    requires n < 100
    ensures Value(Two(n)) == n
  {
    var s := Two(n);
    assert s[..1] == [s[0]] && s[..1][..0] == "";
    assert Value([s[0]]) == n / 10;
  }

  lemma {:induction false} ValueAppend(a: string, b: string)
    requires |b| == 2
    ensures Value(a + b) == Value(a) * 100 + Value(b)
  {
    var s, first := a + b, a + [b[0]];
    assert first[..|a|] == a && Value(first) == Value(a) * 10 + Value([b[0]]);
    assert s[..|s| - 1] == first && s[|s| - 1] == b[1];
    assert b[..1] == [b[0]] && Value(b) == Value([b[0]]) * 10 + (b[1] as int - '0' as int);
  }

  lemma {:induction false} DateTextReads(d: Date)
    requires d.year <= 9999 && d.month < 100 && d.day < 100
    ensures var s := DateText(d);
            |s| == 10 && s[4] == s[7] == '-'
            && Value(s[..4]) == d.year && Value(s[5..7]) == d.month && Value(s[8..10]) == d.day
  {
    var s := DateText(d);
    assert s[..4] == Two(d.year / 100) + Two(d.year % 100) && s[5..7] == Two(d.month) && s[8..10] == Two(d.day);
    ValueAppend(Two(d.year / 100), Two(d.year % 100));
    ValueOfTwo(d.year / 100);
    ValueOfTwo(d.year % 100);
    ValueOfTwo(d.month);
    ValueOfTwo(d.day);
  }

  lemma {:induction false} ClockSplits(n: nat)
    requires n < 86400
    ensures n / 3600 < 24 && n % 3600 / 60 < 60 && n % 60 < 60
    ensures n / 3600 * 3600 + n % 3600 / 60 * 60 + n % 60 == n
  {
  }

  lemma {:induction false} ClockReads(t: nat)
    ensures var s := Clock(t);
            |s| == 8 && s[2] == s[5] == ':'
            && Value(s[..2]) * 3600 + Value(s[3..5]) * 60 + Value(s[6..8]) == t % 86400
            && 0 <= Value(s[..2]) < 24 && 0 <= Value(s[3..5]) < 60 && 0 <= Value(s[6..8]) < 60
  {
    var n := t % DAY;
    ClockSplits(n);
    ClockParts(n / HOUR, n % HOUR / 60, n % 60, Clock(t));
  }

  lemma {:induction false} ClockParts(hour: nat, minute: nat, second: nat, s: string)
    requires hour < 100 && minute < 100 && second < 100 && s == Two(hour) + ":" + Two(minute) + ":" + Two(second)
    ensures |s| == 8 && s[2] == s[5] == ':'
    ensures Value(s[..2]) == hour && Value(s[3..5]) == minute && Value(s[6..8]) == second
  {
    assert s[..2] == Two(hour) && s[3..5] == Two(minute) && s[6..8] == Two(second);
    ValueOfTwo(hour);
    ValueOfTwo(minute);
    ValueOfTwo(second);
  }

  /**
   Both texts of an instant of a date, `2006-01-02 15:04:05` and `2006-01-02T15:04:05Z`, with the numbers of the date
   and the time of the day in these places.
   */
  lemma {:induction false} TextsRead(t: Instant, year: nat, month: nat, day: nat)
    requires 1 <= month <= 12 && 1 <= day
    requires MonthStart(Leap(year), month) + day <= MonthStart(Leap(year), month + 1)
    requires t / 86400 == YearStart(year) + MonthStart(Leap(year), month) + day - 1
    ensures |StoredText(t)| == 19 && |BoundText(t)| == 20
    ensures StoredText(t)[10] == ' ' && BoundText(t)[10] == 'T' && BoundText(t)[19] == 'Z'
    ensures BoundText(t)[..10] == StoredText(t)[..10] && BoundText(t)[11..19] == StoredText(t)[11..]
    ensures var s := StoredText(t);
            s[4] == s[7] == '-' && Value(s[..4]) == year && Value(s[5..7]) == month && Value(s[8..10]) == day
    ensures var s := StoredText(t)[11..];
            s[2] == s[5] == ':' && Value(s[..2]) * 3600 + Value(s[3..5]) * 60 + Value(s[6..8]) == t % 86400
            && 0 <= Value(s[..2]) < 24 && 0 <= Value(s[3..5]) < 60 && 0 <= Value(s[6..8]) < 60
  {
    assert Representable(t);
    GregorianDates(year, month, day);
    assert DateOf(t / DAY) == Date(year, month, day);
    DateTextReads(DateOf(t / DAY));
    ClockReads(t);
    var date, clock := DateText(DateOf(t / DAY)), Clock(t);
    var s, b := StoredText(t), BoundText(t);
    assert s == date + (" " + clock) && b == date + ("T" + (clock + "Z"));
    assert s[..10] == date && b[..10] == date && s[11..] == clock && b[11..19] == clock;
    assert s[..4] == date[..4] && s[5..7] == date[5..7] && s[8..10] == date[8..10];
  }
}
