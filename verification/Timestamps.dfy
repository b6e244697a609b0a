/**
 Stored timestamps are the text `datetime.isoformat()` writes for a UTC time:
 no fraction at all on a whole second, six digits otherwise. The SQLite store
 compares them as text, so the text order must be the order in time.
 */
module Timestamps {
  import opened TextOrder

  datatype Stamp = Stamp(year: int, month: int, day: int, hour: int, minute: int, second: int, micro: int)

  predicate Leap(year: int) {
    year % 4 == 0 && (year % 100 != 0 || year % 400 == 0)
  }

  function DaysIn(year: int, month: int): int {
    if month == 2 then (if Leap(year) then 29 else 28)
    else if month in {4, 6, 9, 11} then 30
    else 31
  }

  predicate Valid(t: Stamp) {
    && 1 <= t.year <= 9999 && 1 <= t.month <= 12 && 1 <= t.day <= DaysIn(t.year, t.month)
    && 0 <= t.hour < 24 && 0 <= t.minute < 60 && 0 <= t.second < 60 && 0 <= t.micro < 1_000_000
  }

  // ---- the point in time a stamp names, in microseconds since 0001-01-01 ----

  function DaysBeforeYear(year: nat): nat {
    if year <= 1 then 0
    else DaysBeforeYear(year - 1) + 365 + (if Leap(year - 1) then 1 else 0)
  }

  function DaysBeforeMonth(year: int, month: nat): nat {
    if month <= 1 then 0
    else DaysBeforeMonth(year, month - 1) + DaysIn(year, month - 1)
  }

  function Day(t: Stamp): int
    requires Valid(t)
  {
    DaysBeforeYear(t.year) + DaysBeforeMonth(t.year, t.month) + t.day - 1
  }

  function SecondOfDay(t: Stamp): int {
    (t.hour * 60 + t.minute) * 60 + t.second
  }

  function Instant(t: Stamp): int
    requires Valid(t)
  {
    (Day(t) * 86_400 + SecondOfDay(t)) * 1_000_000 + t.micro
  }

  // ---- the text ----

  function Digits(n: nat, width: nat): (s: string)
    ensures |s| == width
  {
    if width == 0 then "" else Digits(n / 10, width - 1) + [('0' as int + n % 10) as char]
  }

  const ZONE := "+00:00"

  function Fraction(micro: nat): string {
    (if micro == 0 then "" else "." + Digits(micro, 6)) + ZONE
  }

  function Iso(t: Stamp): string
    requires Valid(t)
  {
    Digits(t.year, 4) + ("-" + (Digits(t.month, 2) + ("-" + (Digits(t.day, 2) +
    ("T" + (Digits(t.hour, 2) + (":" + (Digits(t.minute, 2) + (":" + (Digits(t.second, 2) +
    Fraction(t.micro)))))))))))
  }

  // ---- order of the fields ----

  predicate DateLess(a: Stamp, b: Stamp) {
    a.year < b.year || (a.year == b.year && (a.month < b.month || (a.month == b.month && a.day < b.day)))
  }

  predicate ClockLess(a: Stamp, b: Stamp) {
    || a.hour < b.hour
    || (a.hour == b.hour && (a.minute < b.minute || (a.minute == b.minute &&
       (a.second < b.second || (a.second == b.second && a.micro < b.micro)))))
  }

  predicate SameDate(a: Stamp, b: Stamp) {
    a.year == b.year && a.month == b.month && a.day == b.day
  }

  predicate FieldLess(a: Stamp, b: Stamp) {
    DateLess(a, b) || (SameDate(a, b) && ClockLess(a, b))
  }

  function Pow10(n: nat): nat {
    if n == 0 then 1 else 10 * Pow10(n - 1)
  }

  lemma {:induction false} DigitsOrder(m: nat, n: nat, width: nat)
    requires m < Pow10(width) && n < Pow10(width)
    ensures TextLess(Digits(m, width), Digits(n, width)) <==> m < n
    ensures Digits(m, width) == Digits(n, width) <==> m == n
  {
    if width > 0 {
      var a, b := Digits(m / 10, width - 1), Digits(n / 10, width - 1);
      var x, y := ('0' as int + m % 10) as char, ('0' as int + n % 10) as char;
      DigitsOrder(m / 10, n / 10, width - 1);
      TextPrefix(a, b, [x], [y]);
      assert TextLess([x], [y]) <==> x < y;
      assert a + [x] == b + [y] <==> a == b && x == y by {
        if a + [x] == b + [y] {
          assert (a + [x])[..width - 1] == a && (b + [y])[..width - 1] == b;
          assert (a + [x])[width - 1] == x && (b + [y])[width - 1] == y;
        }
      }
    }
  }

  /** One two- or four-digit field with what follows it. */
  lemma FieldOrder(m: nat, n: nat, width: nat, x: string, y: string)
    requires m < Pow10(width) && n < Pow10(width)
    ensures TextLess(Digits(m, width) + x, Digits(n, width) + y) <==> m < n || (m == n && TextLess(x, y))
  {
    DigitsOrder(m, n, width);
    TextPrefix(Digits(m, width), Digits(n, width), x, y);
  }

  lemma SeparatorOrder(c: char, x: string, y: string)
    ensures TextLess([c] + x, [c] + y) <==> TextLess(x, y)
  {
    assert ([c] + x)[1..] == x && ([c] + y)[1..] == y;
  }

  /** `+` sorts before `.`, so a whole second sorts before its own fractions. */
  lemma FractionOrder(m: nat, n: nat)
    requires m < 1_000_000 && n < 1_000_000
    ensures TextLess(Fraction(m), Fraction(n)) <==> m < n
  {
    assert Pow10(6) == 1_000_000 by {
      assert Pow10(3) == 1000;
    }
    if m > 0 && n > 0 {
      assert Fraction(m) == ['.'] + (Digits(m, 6) + ZONE) && Fraction(n) == ['.'] + (Digits(n, 6) + ZONE);
      SeparatorOrder('.', Digits(m, 6) + ZONE, Digits(n, 6) + ZONE);
      FieldOrder(m, n, 6, ZONE, ZONE);
      TextIrreflexive(ZONE);
    } else if m == 0 && n == 0 {
      TextIrreflexive(Fraction(0));
    } else {
      assert Fraction(0)[0] == '+';
      assert m > 0 ==> Fraction(m)[0] == '.';
      assert n > 0 ==> Fraction(n)[0] == '.';
    }
  }

  function ClockText(t: Stamp): string
    requires Valid(t)
  {
    Digits(t.hour, 2) + (":" + (Digits(t.minute, 2) + (":" + (Digits(t.second, 2) + Fraction(t.micro)))))
  }

  lemma ClockTextOrder(a: Stamp, b: Stamp)
    requires Valid(a) && Valid(b)
    ensures TextLess(ClockText(a), ClockText(b)) <==> ClockLess(a, b)
  {
    var a2, b2 := Digits(a.second, 2) + Fraction(a.micro), Digits(b.second, 2) + Fraction(b.micro);
    var a1, b1 := Digits(a.minute, 2) + (":" + a2), Digits(b.minute, 2) + (":" + b2);
    FractionOrder(a.micro, b.micro);
    FieldOrder(a.second, b.second, 2, Fraction(a.micro), Fraction(b.micro));
    SeparatorOrder(':', a2, b2);
    FieldOrder(a.minute, b.minute, 2, ":" + a2, ":" + b2);
    SeparatorOrder(':', a1, b1);
    FieldOrder(a.hour, b.hour, 2, ":" + a1, ":" + b1);
  }

  lemma IsoTextOrder(a: Stamp, b: Stamp)
    requires Valid(a) && Valid(b)
    ensures TextLess(Iso(a), Iso(b)) <==> FieldLess(a, b)
  {
    var a2, b2 := Digits(a.day, 2) + ("T" + ClockText(a)), Digits(b.day, 2) + ("T" + ClockText(b));
    var a1, b1 := Digits(a.month, 2) + ("-" + a2), Digits(b.month, 2) + ("-" + b2);
    ClockTextOrder(a, b);
    SeparatorOrder('T', ClockText(a), ClockText(b));
    FieldOrder(a.day, b.day, 2, "T" + ClockText(a), "T" + ClockText(b));
    SeparatorOrder('-', a2, b2);
    FieldOrder(a.month, b.month, 2, "-" + a2, "-" + b2);
    SeparatorOrder('-', a1, b1);
    assert Pow10(4) == 10_000 by { assert Pow10(2) == 100; }
    FieldOrder(a.year, b.year, 4, "-" + a1, "-" + b1);
  }

  // ---- order in time ----

  lemma {:induction false} MonthsFit(year: int, month: nat, later: nat)
    requires 1 <= month < later <= 13
    ensures DaysBeforeMonth(year, month) + DaysIn(year, month) <= DaysBeforeMonth(year, later)
  {
    if month + 1 < later {
      MonthsFit(year, month, later - 1);
    }
  }

  lemma YearLength(year: nat)
    ensures DaysBeforeMonth(year, 13) == 365 + (if Leap(year) then 1 else 0)
  {
    assert DaysBeforeMonth(year, 2) == 31;
    assert DaysBeforeMonth(year, 3) == 59 + (if Leap(year) then 1 else 0);
    assert DaysBeforeMonth(year, 5) == DaysBeforeMonth(year, 3) + 61;
    assert DaysBeforeMonth(year, 7) == DaysBeforeMonth(year, 5) + 61;
    assert DaysBeforeMonth(year, 9) == DaysBeforeMonth(year, 7) + 62;
    assert DaysBeforeMonth(year, 11) == DaysBeforeMonth(year, 9) + 61;
  }

  lemma {:induction false} YearsFit(year: nat, later: nat)
    requires 1 <= year < later
    ensures DaysBeforeYear(year) + DaysBeforeMonth(year, 13) <= DaysBeforeYear(later)
  {
    if year + 1 < later {
      YearsFit(year, later - 1);
    } else {
      YearLength(year);
    }
  }

  lemma DateOrder(a: Stamp, b: Stamp)
    requires Valid(a) && Valid(b) && DateLess(a, b)
    ensures Day(a) < Day(b)
  {
    if a.year < b.year {
      YearsFit(a.year, b.year);
      MonthsFit(a.year, a.month, 13);
    } else if a.month < b.month {
      MonthsFit(a.year, a.month, b.month);
    }
  }

  lemma FieldsFollowTime(a: Stamp, b: Stamp)
    requires Valid(a) && Valid(b) && FieldLess(a, b)
    ensures Instant(a) < Instant(b)
  {
    assert 0 <= SecondOfDay(a) < 86_400 && 0 <= SecondOfDay(b) < 86_400;
    if DateLess(a, b) {
      DateOrder(a, b);
    }
  }

  /** Comparing the stored text is comparing the times, for every pair of UTC datetimes. */
  lemma TextOrderIsTimeOrder(a: Stamp, b: Stamp)
    requires Valid(a) && Valid(b)
    ensures TextLess(Iso(a), Iso(b)) <==> Instant(a) < Instant(b)
    ensures Iso(a) == Iso(b) <==> Instant(a) == Instant(b)
  {
    IsoTextOrder(a, b);
    IsoTextOrder(b, a);
    if FieldLess(a, b) {
      FieldsFollowTime(a, b);
    } else if FieldLess(b, a) {
      FieldsFollowTime(b, a);
    }
    TextIrreflexive(Iso(a));
    TextTotal(Iso(a), Iso(b));
  }

  // ---- the calendar and the text, checked from outside ----

  lemma Quotients(n: nat)
    requires n >= 1
    ensures n / 4 == (n - 1) / 4 + if n % 4 == 0 then 1 else 0
    ensures n / 100 == (n - 1) / 100 + if n % 100 == 0 then 1 else 0
    ensures n / 400 == (n - 1) / 400 + if n % 400 == 0 then 1 else 0
  {
  }

  lemma Multiples(n: nat)
    ensures n % 400 == 0 ==> n % 100 == 0
    ensures n % 100 == 0 ==> n % 4 == 0
  {
    assert n % 400 == 0 ==> n == 100 * (4 * (n / 400));
    assert n % 100 == 0 ==> n == 4 * (25 * (n / 100));
  }

  /** The Gregorian count of days, in closed form. */
  lemma {:induction false} DaysBeforeYearIs(year: nat)
    requires year >= 1
    ensures DaysBeforeYear(year) == 365 * (year - 1) + (year - 1) / 4 - (year - 1) / 100 + (year - 1) / 400
  {
    if year > 1 {
      DaysBeforeYearIs(year - 1);
      Quotients(year - 1);
      Multiples(year - 1);
    }
  }

  /** Thirty days have September, April, June and November; February has what is left. */
  lemma MonthsAre(year: nat)
    ensures DaysIn(year, 4) == 30 && DaysIn(year, 6) == 30 && DaysIn(year, 9) == 30 && DaysIn(year, 11) == 30
    ensures DaysIn(year, 1) == 31 && DaysIn(year, 3) == 31 && DaysIn(year, 5) == 31 && DaysIn(year, 7) == 31
    ensures DaysIn(year, 8) == 31 && DaysIn(year, 10) == 31 && DaysIn(year, 12) == 31
    ensures DaysBeforeMonth(year, 13) == 337 + DaysIn(year, 2)
  {
    YearLength(year);
  }

  /** What a run of digits says. */
  function Decimal(s: string): int {
    if s == "" then 0 else (s[0] as int - '0' as int) * Pow10(|s| - 1) + Decimal(s[1..])
  }

  lemma {:induction false} DecimalAppend(s: string, c: char)
    ensures Decimal(s + [c]) == 10 * Decimal(s) + (c as int - '0' as int)
  {
    if s == "" {
      assert (s + [c])[1..] == "";
    } else {
      assert (s + [c])[1..] == s[1..] + [c];
      DecimalAppend(s[1..], c);
      var d := s[0] as int - '0' as int;
      assert d * Pow10(|s|) == 10 * (d * Pow10(|s| - 1));
    }
  }

  lemma {:induction false} DigitsSay(n: nat, width: nat)
    requires n < Pow10(width)
    ensures Decimal(Digits(n, width)) == n && forall c :: c in Digits(n, width) ==> '0' <= c <= '9'
  {
    if width > 0 {
      DigitsSay(n / 10, width - 1);
      DecimalAppend(Digits(n / 10, width - 1), ('0' as int + n % 10) as char);
    }
  }

  /** A number in so many digits, a separator, and the rest. */
  ghost predicate Starts(s: string, n: int, width: nat, separator: char, rest: string) {
    |s| > width && Decimal(s[..width]) == n && s[width] == separator && s[width + 1..] == rest
  }

  lemma FieldStarts(n: nat, width: nat, separator: char, rest: string)
    requires n < Pow10(width)
    ensures Starts(Digits(n, width) + ([separator] + rest), n, width, separator, rest)
  {
    DigitsSay(n, width);
    hide Digits, Decimal;
    var s := Digits(n, width) + ([separator] + rest);
    assert s[..width] == Digits(n, width) && s[width + 1..] == rest;
  }

  /** The second, the fraction if there is one, and the zone. */
  ghost predicate Ends(s: string, t: Stamp) {
    && |s| == (if t.micro == 0 then 8 else 15) && Decimal(s[..2]) == t.second && s[|s| - 6..] == "+00:00"
    && (t.micro != 0 ==> s[2] == '.' && Decimal(s[3..9]) == t.micro)
  }

  /** Year, month, day, hour and minute, each with its separator, and the end. */
  ghost predicate Layout(s: string, t: Stamp) {
    |s| >= 17 && Starts(s, t.year, 4, '-', s[5..]) && Starts(s[5..], t.month, 2, '-', s[8..])
    && Starts(s[8..], t.day, 2, 'T', s[11..]) && Starts(s[11..], t.hour, 2, ':', s[14..])
    && Starts(s[14..], t.minute, 2, ':', s[17..]) && Ends(s[17..], t)
  }

  lemma TextEnds(t: Stamp)
    requires Valid(t)
    ensures Ends(Digits(t.second, 2) + Fraction(t.micro), t)
  {
    PowersOfTen();
    DigitsSay(t.second, 2);
    DigitsSay(t.micro, 6);
    FractionLayout(t.micro);
    hide Digits, Decimal, Pow10, DaysIn, Fraction;
    var f := Fraction(t.micro);
    var s := Digits(t.second, 2) + f;
    assert s[..2] == Digits(t.second, 2) && s[|s| - 6..] == f[|f| - 6..];
    if t.micro != 0 {
      assert s[3..9] == f[1..7];
    }
  }

  lemma IsoLayout(t: Stamp)
    requires Valid(t)
    ensures Layout(Iso(t), t)
  {
    assert t.day <= 31;
    hide Starts, Ends, Digits, Fraction, Pow10, DaysIn;
    PowersOfTen();
    TextEnds(t);
    var e := Digits(t.second, 2) + Fraction(t.micro);
    var d := Digits(t.minute, 2) + ([':'] + e);
    var c := Digits(t.hour, 2) + ([':'] + d);
    var b := Digits(t.day, 2) + (['T'] + c);
    var a := Digits(t.month, 2) + (['-'] + b);
    FieldStarts(t.year, 4, '-', a);
    FieldStarts(t.month, 2, '-', b);
    FieldStarts(t.day, 2, 'T', c);
    FieldStarts(t.hour, 2, ':', d);
    FieldStarts(t.minute, 2, ':', e);
    var s := Digits(t.year, 4) + (['-'] + a);
    assert s == Iso(t);
    hide Iso;
    assert s[5..] == a;
    assert s[8..] == a[3..] == b;
    assert s[11..] == b[3..] == c;
    assert s[14..] == c[3..] == d;
    assert s[17..] == d[3..] == e;
  }

  lemma PowersOfTen()
    ensures Pow10(2) == 100 && Pow10(4) == 10_000 && Pow10(6) == 1_000_000
  {
    assert Pow10(3) == 1_000 && Pow10(5) == 100_000;
  }

  lemma FractionLayout(micro: nat)
    ensures var f := Fraction(micro);
      && |f| == (if micro == 0 then 6 else 13) && f[|f| - 6..] == "+00:00"
      && (micro != 0 ==> f[0] == '.' && f[1..7] == Digits(micro, 6))
  {
    hide Digits;
  }

  // ---- every time has a stamp ----

  lemma {:induction false} YearOf(day: nat, bound: nat) returns (year: nat)
    requires day < DaysBeforeYear(bound)
    ensures 1 <= year < bound && DaysBeforeYear(year) <= day < DaysBeforeYear(year + 1)
  {
    year := bound - 1;
    if day < DaysBeforeYear(year) {
      year := YearOf(day, bound - 1);
    }
  }

  lemma {:induction false} MonthOf(year: int, day: nat, bound: nat) returns (month: nat)
    requires day < DaysBeforeMonth(year, bound)
    ensures 1 <= month < bound && DaysBeforeMonth(year, month) <= day < DaysBeforeMonth(year, month) + DaysIn(year, month)
  {
    month := bound - 1;
    if day < DaysBeforeMonth(year, month) {
      month := MonthOf(year, day, bound - 1);
    }
  }

  const DAY := 86_400_000_000

  /** Every whole number of microseconds from year 1 through year 9999 is the instant of a valid stamp. */
  lemma EveryInstantHasAStamp(n: nat) returns (t: Stamp)
    requires n < DaysBeforeYear(10_000) * DAY
    ensures Valid(t) && Instant(t) == n
  {
    hide DaysBeforeYear, DaysBeforeMonth;
    var day, rest := n / DAY, n % DAY;
    var second, micro := rest / 1_000_000, rest % 1_000_000;
    assert day < DaysBeforeYear(10_000) && n == (day * 86_400 + second) * 1_000_000 + micro;
    t := DateOf(day);
    var hour, minute := ClockOf(second);
    t := t.(hour := hour, minute := minute, second := second % 60, micro := micro);
    assert Day(t) == day && SecondOfDay(t) == second;
  }

  lemma ClockOf(second: nat) returns (hour: nat, minute: nat)
    requires second < 86_400
    ensures hour < 24 && minute < 60 && (hour * 60 + minute) * 60 + second % 60 == second
  {
    hour, minute := second / 3_600, second / 60 % 60;
  }

  lemma DateOf(day: nat) returns (t: Stamp)
    requires day < DaysBeforeYear(10_000)
    ensures Valid(t) && Day(t) == day
  {
    hide DaysBeforeYear, DaysBeforeMonth;
    var year := YearOf(day, 10_000);
    LastDayOfYear(year);
    var month := MonthOf(year, day - DaysBeforeYear(year), 13);
    t := Stamp(year, month, day - DaysBeforeYear(year) - DaysBeforeMonth(year, month) + 1, 0, 0, 0, 0);
  }

  lemma LastDayOfYear(year: nat)
    requires year >= 1
    ensures DaysBeforeYear(year + 1) == DaysBeforeYear(year) + DaysBeforeMonth(year, 13)
  {
    YearLength(year);
  }

  /** So comparing times as numbers, as the rest of the model does, is comparing what the store keeps as text. */
  lemma TimesCompareAsText(m: nat, n: nat) returns (a: Stamp, b: Stamp)
    requires m < DaysBeforeYear(10_000) * DAY && n < DaysBeforeYear(10_000) * DAY
    ensures Valid(a) && Valid(b) && Instant(a) == m && Instant(b) == n
    ensures (m < n <==> TextLess(Iso(a), Iso(b))) && (m == n <==> Iso(a) == Iso(b))
  {
    hide DaysBeforeYear, Iso, Instant, TextLess;
    a := EveryInstantHasAStamp(m);
    b := EveryInstantHasAStamp(n);
    TextOrderIsTimeOrder(a, b);
  }
}
