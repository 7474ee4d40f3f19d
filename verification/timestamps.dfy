/**
 Instants as the calendar writes them (UTC, proleptic Gregorian, no leap seconds) and fixed-width timestamps.
 The texts are compared byte by byte, which is how SQLite orders a TEXT column and how file names sort.
 */
module Timestamps {
  import opened Strings
  import opened Wrappers

  datatype Instant = Instant(year: nat, month: nat, day: nat, hour: nat, minute: nat, second: nat, nanos: nat) {
    predicate Valid() {
      && 1 <= month <= 12 && 1 <= day <= DaysIn(year, month)
      && hour < 24 && minute < 60 && second < 60 && nanos < 1_000_000_000
    }
  }

  /** Go's time.Time in UTC; its zero value stands for "not set". */
  type Time = t: Instant | t.Valid() witness Instant(1, 1, 1, 0, 0, 0, 0)

  const ZERO_TIME: Time := Instant(1, 1, 1, 0, 0, 0, 0)

  // ---- The calendar ----

  predicate Leap(year: nat) {
    year % 4 == 0 && (year % 100 != 0 || year % 400 == 0)
  }

  function DaysIn(year: nat, month: nat): nat
    requires 1 <= month <= 12
  {
    if month == 2 then (if Leap(year) then 29 else 28)
    else if month == 4 || month == 6 || month == 9 || month == 11 then 30
    else 31
  }

  function DaysBeforeMonth(year: nat, month: nat): nat
    requires 1 <= month <= 13
  {
    if month == 1 then 0 else DaysBeforeMonth(year, month - 1) + DaysIn(year, month - 1)
  }

  function DaysBeforeYear(year: nat): nat {
    if year == 0 then 0 else DaysBeforeYear(year - 1) + DaysBeforeMonth(year - 1, 13)
  }

  /** Nanoseconds since midnight. */
  function Clock(t: Instant): (n: nat)
    requires t.Valid()
    ensures n < 86_400_000_000_000
  {
    ((t.hour * 60 + t.minute) * 60 + t.second) * 1_000_000_000 + t.nanos
  }

  /** Nanoseconds since the start of year 0. */
  function Elapsed(t: Instant): nat
    requires t.Valid()
  {
    DayNumber(t) * 86_400_000_000_000 + Clock(t)
  }

  predicate Before(a: Instant, b: Instant)
    requires a.Valid() && b.Valid()
  {
    Elapsed(a) < Elapsed(b)
  }

  lemma {:induction false} MonthsAddUp(year: nat, m: nat, n: nat)
    requires 1 <= m < n <= 13
    ensures DaysBeforeMonth(year, m) + DaysIn(year, m) <= DaysBeforeMonth(year, n)
  {
    if m + 1 < n {
      MonthsAddUp(year, m, n - 1);
    }
  }

  lemma {:induction false} YearsAddUp(y: nat, z: nat)
    requires y < z
    ensures DaysBeforeYear(y) + DaysBeforeMonth(y, 13) <= DaysBeforeYear(z)
  {
    if y + 1 < z {
      YearsAddUp(y, z - 1);
    }
  }

  /** An earlier year, or month of the same year, leaves all its days before the later one. */
  lemma EarlierDate(a: Instant, b: Instant)
    requires a.Valid() && b.Valid()
    requires a.year < b.year || (a.year == b.year && a.month < b.month)
    ensures DaysBeforeYear(a.year) + DaysBeforeMonth(a.year, a.month) + a.day
         <= DaysBeforeYear(b.year) + DaysBeforeMonth(b.year, b.month)
  {
    if a.year < b.year {
      YearsAddUp(a.year, b.year);
      MonthsAddUp(a.year, a.month, 13);
    } else {
      MonthsAddUp(a.year, a.month, b.month);
    }
  }

  function DayNumber(t: Instant): nat
    requires t.Valid()
  {
    DaysBeforeYear(t.year) + DaysBeforeMonth(t.year, t.month) + (t.day - 1)
  }

  /** Days compare as (year, month, day) do. */
  lemma DaysAreChronological(a: Instant, b: Instant)
    requires a.Valid() && b.Valid()
    ensures DayNumber(a) < DayNumber(b) <==>
      a.year < b.year || (a.year == b.year && (a.month < b.month || (a.month == b.month && a.day < b.day)))
    ensures DayNumber(a) == DayNumber(b) <==> a.year == b.year && a.month == b.month && a.day == b.day
  {
    if a.year < b.year || (a.year == b.year && a.month < b.month) {
      EarlierDate(a, b);
    } else if b.year < a.year || (a.year == b.year && b.month < a.month) {
      EarlierDate(b, a);
    }
  }

  lemma ClockIsChronological(a: Instant, b: Instant)
    requires a.Valid() && b.Valid()
    ensures Clock(a) < Clock(b) <==>
      || a.hour < b.hour
      || (a.hour == b.hour && (a.minute < b.minute
      || (a.minute == b.minute && (a.second < b.second
      || (a.second == b.second && a.nanos < b.nanos)))))
    ensures Clock(a) == Clock(b) <==>
      a.hour == b.hour && a.minute == b.minute && a.second == b.second && a.nanos == b.nanos
  {
  }

  /** The days of the years before this one, by the Gregorian rule: leap days every 4 years, not 100, but 400. */
  function GregorianDays(year: nat): int {
    365 * year + (year + 3) / 4 - (year + 99) / 100 + (year + 399) / 400
  }

  lemma {:induction false} YearsInClosedForm(year: nat)
    ensures DaysBeforeYear(year) == GregorianDays(year)
  {
    for y := 0 to year
      invariant DaysBeforeYear(y) == GregorianDays(y)
    {
      YearLength(y);
      OneMoreYear(y);
    }
  }

  lemma YearLength(y: nat)
    ensures DaysBeforeYear(y + 1) == DaysBeforeYear(y) + 365 + if Leap(y) then 1 else 0
  {
    MonthStarts(y);
  }

  lemma OneMoreYear(y: nat)
    ensures GregorianDays(y + 1) == GregorianDays(y) + 365 + if Leap(y) then 1 else 0
  {
    FourthYears(y);
    HundredthYears(y);
    FourHundredthYears(y);
    Multiples(y);
  }

  lemma Multiples(y: nat)
    ensures y % 100 == 0 ==> y % 4 == 0
    ensures y % 400 == 0 ==> y % 100 == 0
  {
    assert y == 4 * (25 * (y / 100)) + y % 100;
    assert y == 100 * (4 * (y / 400)) + y % 400;
  }

  lemma FourthYears(y: nat)
    ensures (y + 4) / 4 == (y + 3) / 4 + if y % 4 == 0 then 1 else 0
  {
  }

  lemma HundredthYears(y: nat)
    ensures (y + 100) / 100 == (y + 99) / 100 + if y % 100 == 0 then 1 else 0
  {
    var q, r := y / 100, y % 100;
    assert y + 100 == 100 * (q + 1) + r;
    assert y + 99 == if r == 0 then 100 * q + 99 else 100 * (q + 1) + (r - 1);
  }

  lemma FourHundredthYears(y: nat)
    ensures (y + 400) / 400 == (y + 399) / 400 + if y % 400 == 0 then 1 else 0
  {
    var q, r := y / 400, y % 400;
    assert y + 400 == 400 * (q + 1) + r;
    assert y + 399 == if r == 0 then 400 * q + 399 else 400 * (q + 1) + (r - 1);
  }

  /** How many days of a year have gone when each month begins, and how many there are. */
  lemma MonthStarts(year: nat)
    ensures var leap := if Leap(year) then 1 else 0;
            && DaysBeforeMonth(year, 2) == 31 && DaysBeforeMonth(year, 3) == 59 + leap
            && DaysBeforeMonth(year, 4) == 90 + leap && DaysBeforeMonth(year, 5) == 120 + leap
            && DaysBeforeMonth(year, 6) == 151 + leap && DaysBeforeMonth(year, 7) == 181 + leap
            && DaysBeforeMonth(year, 8) == 212 + leap && DaysBeforeMonth(year, 9) == 243 + leap
            && DaysBeforeMonth(year, 10) == 273 + leap && DaysBeforeMonth(year, 11) == 304 + leap
            && DaysBeforeMonth(year, 12) == 334 + leap && DaysBeforeMonth(year, 13) == 365 + leap
  {
    assert DaysBeforeMonth(year, 2) == 31;
    assert DaysBeforeMonth(year, 3) == DaysBeforeMonth(year, 2) + DaysIn(year, 2);
    assert DaysBeforeMonth(year, 4) == DaysBeforeMonth(year, 3) + 31;
    assert DaysBeforeMonth(year, 5) == DaysBeforeMonth(year, 4) + 30;
    assert DaysBeforeMonth(year, 6) == DaysBeforeMonth(year, 5) + 31;
    assert DaysBeforeMonth(year, 7) == DaysBeforeMonth(year, 6) + 30;
    assert DaysBeforeMonth(year, 8) == DaysBeforeMonth(year, 7) + 31;
    assert DaysBeforeMonth(year, 9) == DaysBeforeMonth(year, 8) + 31;
    assert DaysBeforeMonth(year, 10) == DaysBeforeMonth(year, 9) + 30;
    assert DaysBeforeMonth(year, 11) == DaysBeforeMonth(year, 10) + 31;
    assert DaysBeforeMonth(year, 12) == DaysBeforeMonth(year, 11) + 30;
  }

  // ---- Fixed-width decimal fields ----

  function Pow10(w: nat): (p: nat)
    ensures 1 <= p
  {
    if w == 0 then 1 else 10 * Pow10(w - 1)
  }

  function Digit(d: nat): char
    requires d < 10
  {
    '0' + d as char
  }

  /** `n` in `w` decimal digits, high ones first; Go pads with zeros and never truncates what fits. */
  function Digits(n: nat, w: nat): (s: string)
    requires n < Pow10(w)
    ensures |s| == w
  {
    if w == 0 then "" else Digits(n / 10, w - 1) + [Digit(n % 10)]
  }

  lemma {:induction false} DigitsOrder(m: nat, n: nat, w: nat)
    requires m < Pow10(w) && n < Pow10(w)
    ensures Less(Digits(m, w), Digits(n, w)) <==> m < n
    ensures Digits(m, w) == Digits(n, w) <==> m == n
  {
    if 0 < w {
      DigitsOrder(m / 10, n / 10, w - 1);
      var dm, dn := [Digit(m % 10)], [Digit(n % 10)];
      LessOfConcat(Digits(m / 10, w - 1), Digits(n / 10, w - 1), dm, dn);
      assert Less(dm, dn) <==> m % 10 < n % 10;
      assert Digits(m, w)[..w - 1] == Digits(m / 10, w - 1) && Digits(n, w)[..w - 1] == Digits(n / 10, w - 1);
      assert Digits(m, w)[w - 1] == Digit(m % 10) && Digits(n, w)[w - 1] == Digit(n % 10);
    }
  }

  /** A layout filled in: a value, its width, the text the layout puts after it, and the fields that follow. */
  datatype Fields = End | Field(value: nat, width: nat, after: string, rest: Fields)

  predicate Fits(f: Fields) {
    f.Field? ==> f.value < Pow10(f.width) && Fits(f.rest)
  }

  predicate SameLayout(f: Fields, g: Fields) {
    match (f, g)
    case (End, End) => true
    case (Field(_, w, s, f'), Field(_, v, t, g')) => w == v && s == t && SameLayout(f', g')
    case _ => false
  }

  function Render(f: Fields): string
    requires Fits(f)
  {
    if f.End? then "" else Digits(f.value, f.width) + (f.after + Render(f.rest))
  }

  /** The first difference decides. */
  predicate FieldsLess(f: Fields, g: Fields) {
    f.Field? && g.Field? && (f.value < g.value || (f.value == g.value && FieldsLess(f.rest, g.rest)))
  }

  /** Fixed-width texts of one layout compare as their fields do, and determine them. */
  lemma {:induction false} RenderOrder(f: Fields, g: Fields)
    requires Fits(f) && Fits(g) && SameLayout(f, g)
    ensures |Render(f)| == |Render(g)|
    ensures Less(Render(f), Render(g)) <==> FieldsLess(f, g)
    ensures Render(f) == Render(g) <==> f == g
  {
    if f.Field? {
      RenderOrder(f.rest, g.rest);
      DigitsOrder(f.value, g.value, f.width);
      var tf, tg := f.after + Render(f.rest), g.after + Render(g.rest);
      LessOfConcat(Digits(f.value, f.width), Digits(g.value, g.width), tf, tg);
      LessOfConcat(f.after, g.after, Render(f.rest), Render(g.rest));
      LessIsStrictOrder(f.after, f.after, f.after);
      assert tf[|f.after|..] == Render(f.rest) && tg[|f.after|..] == Render(g.rest);
      var rf, rg := Render(f), Render(g);
      assert rf[..f.width] == Digits(f.value, f.width) && rg[..f.width] == Digits(g.value, f.width);
      assert rf[f.width..] == tf && rg[f.width..] == tg;
    }
  }

  // ---- The two layouts ----

  /** The year is padded to four digits and longer if it has to be. */
  function YearWidth(year: nat): (w: nat)
    ensures year < Pow10(w)
  {
    if year < 10000 then
      assert Pow10(4) == 10 * (10 * (10 * (10 * Pow10(0))));
      4
    else 1 + YearWidth(year / 10)
  }

  lemma SmallPowers()
    ensures Pow10(2) == 100 && Pow10(9) == 1_000_000_000
  {
    assert Pow10(2) == 10 * (10 * Pow10(0));
    assert Pow10(5) == 10 * (10 * (10 * Pow10(2)));
    assert Pow10(9) == 10 * (10 * (10 * (10 * Pow10(5))));
  }

  /** "2006-01-02T15:04:05.000000000Z": nine fractional digits, always. */
  function ActivityFields(t: Instant): Fields {
    Field(t.year, YearWidth(t.year), "-", Field(t.month, 2, "-", Field(t.day, 2, "T", ActivityClock(t))))
  }

  function ActivityClock(t: Instant): Fields {
    Field(t.hour, 2, ":", Field(t.minute, 2, ":", Field(t.second, 2, ".", Field(t.nanos, 9, "Z", End))))
  }

  /** "20060102T150405Z". */
  function SnapshotFields(t: Instant): Fields {
    Field(t.year, YearWidth(t.year), "", Field(t.month, 2, "", Field(t.day, 2, "T", SnapshotClock(t))))
  }

  function SnapshotClock(t: Instant): Fields {
    Field(t.hour, 2, "", Field(t.minute, 2, "", Field(t.second, 2, "Z", End)))
  }

  lemma LayoutsFit(t: Instant)
    requires t.Valid()
    ensures Fits(ActivityFields(t)) && Fits(SnapshotFields(t))
  {
    SmallPowers();
    assert Fits(ActivityClock(t).rest.rest) && Fits(SnapshotClock(t).rest.rest);
    assert Fits(ActivityClock(t)) && Fits(SnapshotClock(t));
    assert Fits(ActivityFields(t).rest.rest) && Fits(SnapshotFields(t).rest.rest);
  }

  function ActivityText(t: Instant): string
    requires t.Valid()
  {
    LayoutsFit(t);
    Render(ActivityFields(t))
  }

  function SnapshotText(t: Instant): string
    requires t.Valid()
  {
    LayoutsFit(t);
    Render(SnapshotFields(t))
  }

  /** Three leading fields and a remainder, compared. */
  lemma DateOrder(f: Fields, g: Fields)
    requires f.Field? && f.rest.Field? && f.rest.rest.Field? && g.Field? && g.rest.Field? && g.rest.rest.Field?
    ensures FieldsLess(f, g) <==>
      || f.value < g.value || (f.value == g.value && (f.rest.value < g.rest.value
      || (f.rest.value == g.rest.value && (f.rest.rest.value < g.rest.rest.value
      || (f.rest.rest.value == g.rest.rest.value && FieldsLess(f.rest.rest.rest, g.rest.rest.rest))))))
  {
    assert FieldsLess(f.rest, g.rest) <==>
      f.rest.value < g.rest.value || (f.rest.value == g.rest.value && FieldsLess(f.rest.rest, g.rest.rest));
  }

  lemma ActivityClockOrder(a: Instant, b: Instant)
    requires a.Valid() && b.Valid()
    ensures SameLayout(ActivityClock(a), ActivityClock(b))
    ensures FieldsLess(ActivityClock(a), ActivityClock(b)) <==> Clock(a) < Clock(b)
  {
    var f, g := ActivityClock(a), ActivityClock(b);
    assert SameLayout(f.rest.rest, g.rest.rest);
    assert SameLayout(f, g);
    ClockIsChronological(a, b);
    DateOrder(f, g);
    assert FieldsLess(f.rest.rest.rest, g.rest.rest.rest) <==> a.nanos < b.nanos;
  }

  lemma SnapshotClockOrder(a: Instant, b: Instant)
    requires a.Valid() && b.Valid() && a.nanos == b.nanos
    ensures SameLayout(SnapshotClock(a), SnapshotClock(b))
    ensures FieldsLess(SnapshotClock(a), SnapshotClock(b)) <==> Clock(a) < Clock(b)
  {
    var f, g := SnapshotClock(a), SnapshotClock(b);
    assert SameLayout(f.rest.rest, g.rest.rest);
    assert SameLayout(f, g);
    ClockIsChronological(a, b);
    DateOrder(f, g);
  }

  /** Text order is time order among years of the same width, in particular among all years up to 9999. */
  lemma ActivityTextOrder(a: Instant, b: Instant)
    requires a.Valid() && b.Valid() && YearWidth(a.year) == YearWidth(b.year)
    ensures Less(ActivityText(a), ActivityText(b)) <==> Before(a, b)
    ensures ActivityText(a) == ActivityText(b) <==> a == b
  {
    LayoutsFit(a);
    LayoutsFit(b);
    ActivityClockOrder(a, b);
    DateOrder(ActivityFields(a), ActivityFields(b));
    RenderOrder(ActivityFields(a), ActivityFields(b));
    DaysAreChronological(a, b);
  }

  /** The order breaks when the year outgrows its four digits: year 10000 sorts before year 9999. */
  lemma ActivityTextOverflows()
    ensures var a, b := Instant(9999, 1, 1, 0, 0, 0, 0), Instant(10000, 1, 1, 0, 0, 0, 0);
            a.Valid() && b.Valid() && Before(a, b) && Less(ActivityText(b), ActivityText(a))
  {
    var a, b := Instant(9999, 1, 1, 0, 0, 0, 0), Instant(10000, 1, 1, 0, 0, 0, 0);
    DaysAreChronological(a, b);
    YearInFront(a);
    YearInFront(b);
    LeadingDigits();
  }

  predicate TextOrdersPair(a: Instant, b: Instant)
    requires a.Valid() && b.Valid()
  {
    Less(ActivityText(a), ActivityText(b)) <==> Before(a, b)
  }

  /** The texts of all times up to the given year sort as the times do. */
  ghost predicate TextOrdersTimes(bound: nat) {
    forall a: Instant, b: Instant | a.Valid() && b.Valid() && a.year <= bound && b.year <= bound :: TextOrdersPair(a, b)
  }

  lemma FourDigitYearsOrder(bound: nat)
    requires bound <= 9999
    ensures TextOrdersTimes(bound)
  {
    forall a: Instant, b: Instant | a.Valid() && b.Valid() && a.year <= bound && b.year <= bound
      ensures TextOrdersPair(a, b)
    {
      ActivityTextOrder(a, b);
    }
  }

  lemma ReversedPair(a: Instant, b: Instant)
    requires a.Valid() && b.Valid() && Before(a, b) && Less(ActivityText(b), ActivityText(a))
    ensures !TextOrdersPair(a, b)
  {
    LessIsStrictOrder(ActivityText(a), ActivityText(b), ActivityText(a));
  }

  /** Text order is time order among all years up to a bound exactly when the bound has at most four digits. */
  lemma ActivityTextOrderExactly(bound: nat)
    ensures TextOrdersTimes(bound) <==> bound <= 9999
  {
    if bound <= 9999 {
      FourDigitYearsOrder(bound);
    } else {
      ActivityTextOverflows();
      ReversedPair(Instant(9999, 1, 1, 0, 0, 0, 0), Instant(10000, 1, 1, 0, 0, 0, 0));
    }
  }

  lemma YearInFront(t: Instant)
    requires t.Valid()
    ensures Digits(t.year, YearWidth(t.year)) <= ActivityText(t)
  {
    LayoutsFit(t);
  }

  lemma LeadingDigits()
    ensures YearWidth(9999) == 4 && Digits(9999, 4)[0] == '9'
    ensures YearWidth(10000) == 5 && Digits(10000, 5)[0] == '1'
  {
    assert Digits(99, 2) == Digits(9, 1) + [Digit(9)] && Digits(9, 1) == "" + [Digit(9)];
    assert Digits(9999, 4) == Digits(999, 3) + [Digit(9)] && Digits(999, 3) == Digits(99, 2) + [Digit(9)];
    assert Digits(10, 2) == Digits(1, 1) + [Digit(0)] && Digits(1, 1) == "" + [Digit(1)];
    assert Digits(1000, 4) == Digits(100, 3) + [Digit(0)] && Digits(100, 3) == Digits(10, 2) + [Digit(0)];
    assert Digits(10000, 5) == Digits(1000, 4) + [Digit(0)];
  }

  /** Snapshot timestamps, which have whole seconds, sort chronologically and name one second each. */
  lemma SnapshotTextOrder(a: Instant, b: Instant)
    requires a.Valid() && b.Valid() && YearWidth(a.year) == YearWidth(b.year) && a.nanos == b.nanos == 0
    ensures Less(SnapshotText(a), SnapshotText(b)) <==> Before(a, b)
    ensures SnapshotText(a) == SnapshotText(b) <==> a == b
  {
    LayoutsFit(a);
    LayoutsFit(b);
    SnapshotClockOrder(a, b);
    DateOrder(SnapshotFields(a), SnapshotFields(b));
    RenderOrder(SnapshotFields(a), SnapshotFields(b));
    DaysAreChronological(a, b);
  }

  // ---- Reading a snapshot timestamp back ----

  predicate AllDigits(s: string) {
    forall i | 0 <= i < |s| :: '0' <= s[i] <= '9'
  }

  function Number(s: string): nat
    requires AllDigits(s)
  {
    if s == "" then 0
    else
      10 * Number(s[..|s| - 1]) + (s[|s| - 1] - '0') as nat
  }

  /** Nine digits count; shorter fractions are scaled up and further digits dropped. */
  function FractionNanos(digits: string): (n: nat)
    requires AllDigits(digits)
    ensures n < 1_000_000_000
  {
    var d := if |digits| > 9 then digits[..9] else digits;
    NumberFits(d);
    PowersMultiply(Number(d), |d|, 9 - |d|);
    SmallPowers();
    Number(d) * Pow10(9 - |d|)
  }

  /** A fraction of a second: a point or a comma, and digits. */
  predicate IsFraction(s: string) {
    |s| >= 2 && (s[0] == '.' || s[0] == ',') && AllDigits(s[1..])
  }

  predicate HasFraction(s: string) {
    '.' in s || ',' in s
  }

  /**
   time.Parse with the snapshot layout: digits in their places, a day that exists, and right after the seconds a
   fraction, which it accepts although the layout has none.
   */
  function ParseSnapshotText(s: string): Option<Instant> {
    if |s| >= 16 && AllDigits(s[..8]) && s[8] == 'T' && AllDigits(s[9..15]) && s[|s| - 1] == 'Z' then
      assert forall i | 0 <= i < 8 :: s[i] == s[..8][i];
      assert forall i | 9 <= i < 15 :: s[i] == s[9..15][i - 9];
      var fraction := s[15..|s| - 1];
      if fraction != "" && !IsFraction(fraction) then None
      else
        var nanos := if fraction == "" then 0 else FractionNanos(fraction[1..]);
        var t := Instant(Number(s[..4]), Number(s[4..6]), Number(s[6..8]),
                         Number(s[9..11]), Number(s[11..13]), Number(s[13..15]), nanos);
        if t.Valid() then Some(t) else None
    else None
  }

  lemma {:induction false} NumberFits(s: string)
    requires AllDigits(s)
    ensures Number(s) < Pow10(|s|)
  {
    if s != "" {
      NumberFits(s[..|s| - 1]);
    }
  }

  lemma {:induction false} PowersMultiply(n: nat, w: nat, k: nat)
    requires n < Pow10(w)
    ensures n * Pow10(k) < Pow10(w + k)
  {
    if k > 0 {
      PowersMultiply(n, w, k - 1);
      assert n * Pow10(k) == 10 * (n * Pow10(k - 1));
    }
  }

  lemma {:induction false} NumberOfDigits(n: nat, w: nat)
    requires n < Pow10(w)
    ensures AllDigits(Digits(n, w)) && Number(Digits(n, w)) == n
  {
    if 0 < w {
      NumberOfDigits(n / 10, w - 1);
      var s := Digits(n, w);
      assert s[..w - 1] == Digits(n / 10, w - 1) && s[w - 1] == Digit(n % 10);
    }
  }

  lemma RenderFirst(f: Fields)
    requires f.Field? && Fits(f)
    ensures f.value < Pow10(f.width) && Fits(f.rest)
    ensures Render(f) == Digits(f.value, f.width) + (f.after + Render(f.rest))
  {
  }

  lemma SnapshotClockLayout(t: Instant)
    requires t.Valid()
    ensures t.hour < Pow10(2) && t.minute < Pow10(2) && t.second < Pow10(2)
    ensures Fits(SnapshotClock(t))
    ensures Render(SnapshotClock(t)) == Digits(t.hour, 2) + Digits(t.minute, 2) + Digits(t.second, 2) + "Z"
  {
    LayoutsFit(t);
    var f := SnapshotClock(t);
    assert Fits(SnapshotFields(t).rest) && Fits(SnapshotFields(t).rest.rest) && Fits(f);
    RenderFirst(f);
    RenderFirst(f.rest);
    RenderFirst(f.rest.rest);
    assert Render(End) == "";
  }

  lemma SnapshotLayout(t: Instant)
    requires t.Valid() && t.year <= 9999
    ensures t.year < Pow10(4) && t.month < Pow10(2) && t.day < Pow10(2)
    ensures t.hour < Pow10(2) && t.minute < Pow10(2) && t.second < Pow10(2)
    ensures SnapshotText(t) == Digits(t.year, 4) + Digits(t.month, 2) + Digits(t.day, 2) + "T"
                             + Digits(t.hour, 2) + Digits(t.minute, 2) + Digits(t.second, 2) + "Z"
  {
    LayoutsFit(t);
    SnapshotClockLayout(t);
    assert YearWidth(t.year) == 4;
    var f := SnapshotFields(t);
    RenderFirst(f);
    RenderFirst(f.rest);
    RenderFirst(f.rest.rest);
    SixParts(Digits(t.year, 4), Digits(t.month, 2), Digits(t.day, 2),
             Digits(t.hour, 2), Digits(t.minute, 2), Digits(t.second, 2));
  }

  lemma ActivityClockLayout(t: Instant)
    requires t.Valid()
    ensures t.hour < Pow10(2) && t.minute < Pow10(2) && t.second < Pow10(2) && t.nanos < Pow10(9)
    ensures Fits(ActivityClock(t))
    ensures Render(ActivityClock(t)) == Digits(t.hour, 2) + ":" + Digits(t.minute, 2) + ":" + Digits(t.second, 2)
                                      + "." + Digits(t.nanos, 9) + "Z"
  {
    LayoutsFit(t);
    var f := ActivityClock(t);
    assert Fits(ActivityFields(t).rest) && Fits(ActivityFields(t).rest.rest) && Fits(f);
    RenderFirst(f);
    RenderFirst(f.rest);
    RenderFirst(f.rest.rest);
    RenderFirst(f.rest.rest.rest);
    assert Render(End) == "";
    ClockParts(Digits(t.hour, 2), Digits(t.minute, 2), Digits(t.second, 2), Digits(t.nanos, 9));
  }

  lemma ClockParts(h: string, mi: string, sec: string, n: string)
    ensures h + (":" + (mi + (":" + (sec + ("." + (n + ("Z" + ""))))))) == h + ":" + mi + ":" + sec + "." + n + "Z"
  {
  }

  /** An activity timestamp field by field: RFC 3339, section 5.6, with nine digits of fraction. */
  lemma ActivityLayout(t: Instant)
    requires t.Valid() && t.year <= 9999
    ensures t.year < Pow10(4) && t.month < Pow10(2) && t.day < Pow10(2)
    ensures t.hour < Pow10(2) && t.minute < Pow10(2) && t.second < Pow10(2) && t.nanos < Pow10(9)
    ensures ActivityText(t) == Digits(t.year, 4) + "-" + Digits(t.month, 2) + "-" + Digits(t.day, 2) + "T"
      + (Digits(t.hour, 2) + ":" + Digits(t.minute, 2) + ":" + Digits(t.second, 2) + "." + Digits(t.nanos, 9) + "Z")
  {
    LayoutsFit(t);
    ActivityClockLayout(t);
    assert YearWidth(t.year) == 4;
    var f := ActivityFields(t);
    RenderFirst(f);
    RenderFirst(f.rest);
    RenderFirst(f.rest.rest);
    DateParts(Digits(t.year, 4), Digits(t.month, 2), Digits(t.day, 2), Render(ActivityClock(t)));
  }

  lemma DateParts(y: string, mo: string, d: string, clock: string)
    ensures y + ("-" + (mo + ("-" + (d + ("T" + clock))))) == y + "-" + mo + "-" + d + "T" + clock
  {
  }

  lemma SixParts(y: string, mo: string, d: string, h: string, mi: string, sec: string)
    ensures y + ("" + (mo + ("" + (d + ("T" + (h + mi + sec + "Z")))))) == y + mo + d + "T" + h + mi + sec + "Z"
  {
  }

  /** A formatted snapshot time parses to itself. */
  lemma SnapshotTimeRoundTrip(t: Instant)
    requires t.Valid() && t.year <= 9999 && t.nanos == 0
    ensures |SnapshotText(t)| == 16
    ensures '-' !in SnapshotText(t)
    ensures ParseSnapshotText(SnapshotText(t)) == Some(t)
  {
    SnapshotLayout(t);
    NumberOfDigits(t.year, 4);
    NumberOfDigits(t.month, 2);
    NumberOfDigits(t.day, 2);
    NumberOfDigits(t.hour, 2);
    NumberOfDigits(t.minute, 2);
    NumberOfDigits(t.second, 2);
    var date := Digits(t.year, 4) + Digits(t.month, 2) + Digits(t.day, 2);
    var clock := Digits(t.hour, 2) + Digits(t.minute, 2) + Digits(t.second, 2);
    ThreePieces(Digits(t.year, 4), Digits(t.month, 2), Digits(t.day, 2));
    ThreePieces(Digits(t.hour, 2), Digits(t.minute, 2), Digits(t.second, 2));
    PartsParse(date, clock);
    SixPieces(Digits(t.year, 4), Digits(t.month, 2), Digits(t.day, 2),
              Digits(t.hour, 2), Digits(t.minute, 2), Digits(t.second, 2));
  }

  lemma SixPieces(y: string, mo: string, d: string, h: string, mi: string, sec: string)
    ensures (y + mo + d) + "T" + (h + mi + sec) + "Z" == y + mo + d + "T" + h + mi + sec + "Z"
  {
  }

  lemma ThreePieces(a: string, b: string, c: string)
    requires AllDigits(a) && AllDigits(b) && AllDigits(c)
    ensures var s := a + b + c;
            s[..|a|] == a && s[|a|..|a| + |b|] == b && s[|a| + |b|..] == c && AllDigits(s)
  {
  }

  lemma PartsParse(date: string, clock: string)
    requires |date| == 8 && AllDigits(date) && |clock| == 6 && AllDigits(clock)
    ensures var s := date + "T" + clock + "Z";
            var t := Instant(Number(date[..4]), Number(date[4..6]), Number(date[6..]),
                             Number(clock[..2]), Number(clock[2..4]), Number(clock[4..]), 0);
            |s| == 16 && '-' !in s && ParseSnapshotText(s) == if t.Valid() then Some(t) else None
  {
    var s := date + "T" + clock + "Z";
    assert s[..8] == date && s[9..15] == clock;
    assert s[..4] == date[..4] && s[4..6] == date[4..6] && s[6..8] == date[6..];
    assert s[9..11] == clock[..2] && s[11..13] == clock[2..4] && s[13..15] == clock[4..];
  }

  lemma {:induction false} DigitsOfNumber(s: string)
    requires AllDigits(s)
    ensures Number(s) < Pow10(|s|)
    ensures Digits(Number(s), |s|) == s
  {
    if s != "" {
      var front, last := s[..|s| - 1], s[|s| - 1];
      DigitsOfNumber(front);
      var d := (last - '0') as nat;
      assert Number(s) == 10 * Number(front) + d && d < 10;
      assert Number(s) / 10 == Number(front) && Number(s) % 10 == d;
      assert Digit(d) == last;
      assert s == front + [last];
    }
  }

  lemma ParsedYear(s: string)
    requires ParseSnapshotText(s).Some?
    ensures ParseSnapshotText(s).value.year <= 9999
  {
    var y := s[..4];
    assert forall i | 0 <= i < 4 :: y[i] == s[..8][i];
    DigitsOfNumber(y);
    SmallPowers();
    assert Pow10(4) == 10 * (10 * Pow10(2));
  }

  lemma SnapshotPieces(s: string)
    requires |s| == 16 && s[8] == 'T' && s[15] == 'Z'
    ensures s == s[..4] + s[4..6] + s[6..8] + "T" + s[9..11] + s[11..13] + s[13..15] + "Z"
  {
  }

  lemma DigitSlices(s: string)
    requires |s| >= 16 && AllDigits(s[..8]) && AllDigits(s[9..15])
    ensures AllDigits(s[..4]) && AllDigits(s[4..6]) && AllDigits(s[6..8])
    ensures AllDigits(s[9..11]) && AllDigits(s[11..13]) && AllDigits(s[13..15])
  {
    assert forall i | 0 <= i < 8 :: s[i] == s[..8][i];
    assert forall i | 9 <= i < 15 :: s[i] == s[9..15][i - 9];
  }

  lemma FractionShows(s: string)
    requires ParseSnapshotText(s).Some?
    ensures HasFraction(s) <==> |s| > 16
  {
    assert forall i | 0 <= i < 8 :: s[i] == s[..8][i];
    assert forall i | 9 <= i < 15 :: s[i] == s[9..15][i - 9];
    if |s| > 16 {
      assert s[15..|s| - 1][0] == s[15];
      assert s[15] in s;
    }
  }

  /** Text that parses as a snapshot time is the text that time is written as, unless it has a fraction. */
  lemma ParsedStampReprints(s: string)
    requires ParseSnapshotText(s).Some?
    ensures ParseSnapshotText(s).value.Valid()
    ensures SnapshotText(ParseSnapshotText(s).value) == s <==> !HasFraction(s)
  {
    ParsedYear(s);
    DigitSlices(s);
    DigitsOfNumber(s[..4]);
    DigitsOfNumber(s[4..6]);
    DigitsOfNumber(s[6..8]);
    DigitsOfNumber(s[9..11]);
    DigitsOfNumber(s[11..13]);
    DigitsOfNumber(s[13..15]);
    SnapshotLayout(ParseSnapshotText(s).value);
    FractionShows(s);
    if |s| == 16 {
      SnapshotPieces(s);
    }
  }

  /** Any whole second is also read from its text with a fraction put in front of the closing letter. */
  lemma FractionsAreAccepted(t: Instant, fraction: string)
    requires t.Valid() && t.year <= 9999 && t.nanos == 0 && IsFraction(fraction)
    ensures |SnapshotText(t)| == 16
    ensures ParseSnapshotText(SnapshotText(t)[..15] + fraction + "Z")
         == Some(t.(nanos := FractionNanos(fraction[1..])))
  {
    SnapshotTimeRoundTrip(t);
    var s := SnapshotText(t);
    var longer := s[..15] + fraction + "Z";
    assert longer[15..|longer| - 1] == fraction;
    assert longer[..8] == s[..8] && longer[9..15] == s[9..15] && longer[8] == s[8];
    assert longer[..4] == s[..4] && longer[4..6] == s[4..6] && longer[6..8] == s[6..8];
    assert longer[9..11] == s[9..11] && longer[11..13] == s[11..13] && longer[13..15] == s[13..15];
  }
}
