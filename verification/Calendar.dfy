/**
 The proleptic Gregorian calendar behind the "%Y-%m-%d" and "%H:%M:%S" strings,
 and the fact the firewall-rule evaluation stands on: comparing those strings
 compares instants.
 */
module Calendar {
  import opened Text
  import opened Arithmetic

  /** Days from 0000-01-01 to 1970-01-01. */
  const EPOCH_ORDINAL := 719528
  /** Days from 1970-01-01 to 10000-01-01, the first date of more than four year digits. */
  const DAY_LIMIT := 2932897

  datatype Date = Date(year: nat, month: nat, day: nat)

  predicate Leap(y: nat) {
    y % 4 == 0 && (y % 100 != 0 || y % 400 == 0)
  }

  function DaysInMonth(y: nat, m: nat): nat
    requires 1 <= m <= 12
  {
    if m == 2 then (if Leap(y) then 29 else 28)
    else if m == 4 || m == 6 || m == 9 || m == 11 then 30
    else 31
  }

  predicate ValidDate(d: Date) {
    d.year <= 9999 && 1 <= d.month <= 12 && 1 <= d.day <= DaysInMonth(d.year, d.month)
  }

  /** Days before January 1st of year `y`. */
  function YearStart(y: nat): nat {
    365 * y + (y + 3) / 4 - (y + 99) / 100 + (y + 399) / 400
  }

  /** Days of year `y` before the first of month `m`. */
  function MonthStart(y: nat, m: nat): nat
    requires 1 <= m <= 13
  {
    if m == 1 then 0 else MonthStart(y, m - 1) + DaysInMonth(y, m - 1)
  }

  /** Days since 1970-01-01. */
  function DayOf(d: Date): int
    requires ValidDate(d)
  {
    YearStart(d.year) + MonthStart(d.year, d.month) + d.day - 1 - EPOCH_ORDINAL
  }

  /** 0 = Sunday; 1970-01-01 was a Thursday. */
  function Weekday(day: int): int {
    (day + 4) % 7
  }

  predicate DateLess(a: Date, b: Date) {
    a.year < b.year
    || (a.year == b.year && (a.month < b.month || (a.month == b.month && a.day < b.day)))
  }

  lemma DivStep(y: nat, n: nat)
    requires n > 0
    ensures (y + n) / n == (y + n - 1) / n + (if y % n == 0 then 1 else 0)
  {
    var q, r := y / n, y % n;
    assert y == n * q + r;
    if r == 0 {
      DivModUnique(y + n, n, q + 1, 0);
      DivModUnique(y + n - 1, n, q, n - 1);
    } else {
      DivModUnique(y + n, n, q + 1, r);
      DivModUnique(y + n - 1, n, q + 1, r - 1);
    }
  }

  lemma CenturyDivides(y: nat)
    ensures y % 400 == 0 ==> y % 100 == 0
    ensures y % 100 == 0 ==> y % 4 == 0
  {
    if y % 400 == 0 { assert y == 100 * (4 * (y / 400)); }
    if y % 100 == 0 { assert y == 4 * (25 * (y / 100)); }
  }

  lemma YearStartStep(y: nat)
    ensures YearStart(y + 1) == YearStart(y) + (if Leap(y) then 366 else 365)
  {
    DivStep(y, 4);
    DivStep(y, 100);
    DivStep(y, 400);
    CenturyDivides(y);
  }

  lemma {:induction false} YearStartMonotone(a: nat, b: nat)
    requires a <= b
    ensures YearStart(a) + 365 * (b - a) <= YearStart(b)
    decreases b - a
  {
    if a < b {
      YearStartMonotone(a, b - 1);
      YearStartStep(b - 1);
    }
  }

  lemma MonthStartOfYearEnd(y: nat)
    ensures MonthStart(y, 13) == if Leap(y) then 366 else 365
  {
    assert MonthStart(y, 2) == 31;
    assert MonthStart(y, 3) == if Leap(y) then 60 else 59;
    assert MonthStart(y, 5) == MonthStart(y, 3) + 61;
    assert MonthStart(y, 7) == MonthStart(y, 5) + 61;
    assert MonthStart(y, 9) == MonthStart(y, 7) + 62;
    assert MonthStart(y, 11) == MonthStart(y, 9) + 61;
  }

  lemma {:induction false} MonthStartMonotone(y: nat, a: nat, b: nat)
    requires 1 <= a <= b <= 13
    ensures MonthStart(y, a) <= MonthStart(y, b)
    decreases b - a
  {
    if a < b { MonthStartMonotone(y, a, b - 1); }
  }

  /** The day number grows strictly along calendar order. */
  lemma DayOfMonotone(a: Date, b: Date)
    requires ValidDate(a) && ValidDate(b) && DateLess(a, b)
    ensures DayOf(a) < DayOf(b)
  {
    if a.year < b.year {
      MonthStartMonotone(a.year, a.month + 1, 13);
      MonthStartOfYearEnd(a.year);
      YearStartStep(a.year);
      YearStartMonotone(a.year + 1, b.year);
    } else if a.month < b.month {
      MonthStartMonotone(a.year, a.month + 1, b.month);
    }
  }

  function FindYear(ordinal: nat, y: nat): (r: nat)
    requires ordinal < YearStart(y + 1)
    ensures r <= y && YearStart(r) <= ordinal < YearStart(r + 1)
  {
    if YearStart(y) <= ordinal then y else FindYear(ordinal, y - 1)
  }

  function FindMonth(y: nat, dayOfYear: nat, m: nat): (r: nat)
    requires 1 <= m <= 12 && dayOfYear < MonthStart(y, m + 1)
    ensures 1 <= r <= 12 && MonthStart(y, r) <= dayOfYear < MonthStart(y, r + 1)
  {
    if MonthStart(y, m) <= dayOfYear then m else FindMonth(y, dayOfYear, m - 1)
  }

  predicate DayInRange(day: int) {
    -EPOCH_ORDINAL <= day < DAY_LIMIT
  }

  /** The calendar date of a day number, by search for the year and the month. */
  function DateOf(day: int): (d: Date)
    requires DayInRange(day)
    ensures ValidDate(d) && DayOf(d) == day
  {
    var ordinal := day + EPOCH_ORDINAL;
    assert ordinal < YearStart(9999 + 1);
    var y := FindYear(ordinal, 9999);
    YearStartStep(y);
    MonthStartOfYearEnd(y);
    var m := FindMonth(y, ordinal - YearStart(y), 12);
    Date(y, m, ordinal - YearStart(y) - MonthStart(y, m) + 1)
  }

  /** `DateOf` and `DayOf` are inverse bijections between valid dates and days in range. */
  lemma DateOfDayOf(d: Date)
    requires ValidDate(d)
    ensures DayInRange(DayOf(d)) && DateOf(DayOf(d)) == d
  {
    var last := Date(9999, 12, 31);
    assert DayOf(last) == DAY_LIMIT - 1 by {
      MonthStartOfYearEnd(9999);
      assert MonthStart(9999, 13) == MonthStart(9999, 12) + 31;
    }
    if d != last { DayOfMonotone(d, last); }
    var e := DateOf(DayOf(d));
    if DateLess(d, e) { DayOfMonotone(d, e); }
    if DateLess(e, d) { DayOfMonotone(e, d); }
  }

  // ---------------------------------------------------------------- the civil calendar

  /** The last day of its month, by the table every calendar prints. */
  predicate MonthEnds(d: Date) {
    if d.month == 2 then
      d.day == if d.year % 4 == 0 && (d.year % 100 != 0 || d.year % 400 == 0) then 29 else 28
    else if d.month in {4, 6, 9, 11} then d.day == 30
    else d.day == 31
  }

  function Tomorrow(d: Date): Date {
    if !MonthEnds(d) then Date(d.year, d.month, d.day + 1)
    else if d.month < 12 then Date(d.year, d.month + 1, 1)
    else Date(d.year + 1, 1, 1)
  }

  lemma EpochDay()
    ensures DayOf(Date(1970, 1, 1)) == 0 && Weekday(0) == 4
  {
    assert YearStart(1970) == 719528;
  }

  lemma NextWeekday(day: int)
    ensures Weekday(day + 1) == if Weekday(day) == 6 then 0 else Weekday(day) + 1
  {
  }

  lemma MonthEndsAt(d: Date)
    requires 1 <= d.month <= 12
    ensures MonthEnds(d) <==> d.day == DaysInMonth(d.year, d.month)
  {
  }

  lemma TomorrowIsNext(d: Date)
    requires ValidDate(d) && d != Date(9999, 12, 31)
    ensures ValidDate(Tomorrow(d)) && DayOf(Tomorrow(d)) == DayOf(d) + 1
  {
    MonthEndsAt(d);
    if MonthEnds(d) { FirstOfNext(d.year, d.month, d.day); }
  }

  lemma FirstOfNext(y: nat, m: nat, day: nat)
    requires 1 <= m <= 12 && day == DaysInMonth(y, m)
    ensures m < 12 ==> MonthStart(y, m + 1) == MonthStart(y, m) + day
    ensures m == 12 ==> day == 31 && YearStart(y + 1) == YearStart(y) + MonthStart(y, 12) + 31
  {
    if m == 12 {
      MonthStartOfYearEnd(y);
      assert MonthStart(y, 13) == MonthStart(y, 12) + 31;
      YearStartStep(y);
    }
  }

  /** Day numbers count 1970-01-01, a Thursday, as 0 and follow the civil calendar from date to date. */
  lemma DaysFollowCalendar(d: Date)
    requires ValidDate(d)
    ensures DayOf(Date(1970, 1, 1)) == 0 && Weekday(0) == 4
    ensures Weekday(DayOf(d) + 1) == if Weekday(DayOf(d)) == 6 then 0 else Weekday(DayOf(d)) + 1
    ensures d != Date(9999, 12, 31) ==> ValidDate(Tomorrow(d)) && DayOf(Tomorrow(d)) == DayOf(d) + 1
  {
    EpochDay();
    NextWeekday(DayOf(d));
    if d != Date(9999, 12, 31) { TomorrowIsNext(d); }
  }

  /** So the date printed for the next day is the next date. */
  lemma NextDayIsTomorrow(day: int)
    requires DayInRange(day) && DayInRange(day + 1)
    ensures DateOf(day + 1) == Tomorrow(DateOf(day))
  {
    var d := DateOf(day);
    var last := Date(9999, 12, 31);
    assert DayOf(last) == 2932896 by {
      MonthStartOfYearEnd(9999);
      assert MonthStart(9999, 13) == MonthStart(9999, 12) + 31;
    }
    TomorrowIsNext(d);
    DateOfDayOf(Tomorrow(d));
  }

  // ---------------------------------------------------------------- text forms

  function DateText(d: Date): string {
    Pad(d.year, 4) + "-" + Pad(d.month, 2) + "-" + Pad(d.day, 2)
  }

  function TimeText(s: nat): string {
    Pad(s / 3600, 2) + ":" + Pad(s / 60 % 60, 2) + ":" + Pad(s % 60, 2)
  }

  lemma Pow10Small()
    ensures Pow10(2) == 100 && Pow10(4) == 10000
  {
    assert Pow10(3) == 1000;
  }

  lemma ConcatEqual(a: string, b: string, c: string, d: string)
    requires |a| == |b|
    ensures a + c == b + d <==> a == b && c == d
  {
    if a + c == b + d {
      assert a == (a + c)[..|a|] && b == (b + d)[..|a|];
      assert c == (a + c)[|a|..] && d == (b + d)[|a|..];
    }
  }

  lemma SeparatedOrder(p: string, q: string, p': string, q': string, sep: string)
    requires |p| == |p'|
    ensures Less(p + sep + q, p' + sep + q') <==> Less(p, p') || (p == p' && Less(q, q'))
    ensures p + sep + q == p' + sep + q' <==> p == p' && q == q'
  {
    LessIrreflexive(sep);
    LessConcat(p, p', sep, sep);
    ConcatEqual(p, p', sep, sep);
    LessConcat(p + sep, p' + sep, q, q');
    ConcatEqual(p + sep, p' + sep, q, q');
  }

  /** Three fixed-width fields with separators compare as a tuple. */
  lemma FieldsOrder(p: string, q: string, r: string, p': string, q': string, r': string, sep: string)
    requires |p| == |p'| && |q| == |q'|
    ensures Less(p + sep + q + sep + r, p' + sep + q' + sep + r')
            <==> Less(p, p') || (p == p' && (Less(q, q') || (q == q' && Less(r, r'))))
    ensures p + sep + q + sep + r == p' + sep + q' + sep + r' <==> p == p' && q == q' && r == r'
  {
    SeparatedOrder(p, q, p', q', sep);
    SeparatedOrder(p + sep + q, r, p' + sep + q', r', sep);
  }

  lemma DateTextOrder(a: Date, b: Date)
    requires ValidDate(a) && ValidDate(b)
    ensures Less(DateText(a), DateText(b)) <==> DayOf(a) < DayOf(b)
    ensures DateText(a) == DateText(b) <==> a == b
    ensures |DateText(a)| == 10
  {
    Pow10Small();
    PadShape(a.year, 4); PadShape(a.month, 2); PadShape(a.day, 2);
    PadShape(b.year, 4); PadShape(b.month, 2);
    PadOrder(a.year, b.year, 4); PadOrder(a.month, b.month, 2); PadOrder(a.day, b.day, 2);
    FieldsOrder(Pad(a.year, 4), Pad(a.month, 2), Pad(a.day, 2),
                Pad(b.year, 4), Pad(b.month, 2), Pad(b.day, 2), "-");
    if DateLess(a, b) { DayOfMonotone(a, b); }
    else if DateLess(b, a) { DayOfMonotone(b, a); }
  }

  lemma ClockFields(s: nat)
    requires s < 86_400
    ensures s / 3600 < 24 && s / 60 % 60 < 60 && s % 60 < 60
    ensures s == 3600 * (s / 3600) + 60 * (s / 60 % 60) + s % 60
  {
  }

  lemma ClockRecompose(h: nat, m: nat, x: nat)
    requires h < 24 && m < 60 && x < 60
    ensures var v := 3600 * h + 60 * m + x;
            v < 86_400 && v / 3600 == h && v / 60 % 60 == m && v % 60 == x
  {
    assert (3600 * h + 60 * m + x) / 60 == 60 * h + m;
  }

  lemma TimeTextOrder(s: nat, t: nat)
    requires s < 86_400 && t < 86_400
    ensures Less(TimeText(s), TimeText(t)) <==> s < t
    ensures TimeText(s) == TimeText(t) <==> s == t
    ensures |TimeText(s)| == 8
  {
    ClockFields(s);
    ClockFields(t);
    var h, m, x := s / 3600, s / 60 % 60, s % 60;
    var h', m', x' := t / 3600, t / 60 % 60, t % 60;
    TwoDigits(h, h');
    TwoDigits(m, m');
    TwoDigits(x, x');
    FieldsOrder(Pad(h, 2), Pad(m, 2), Pad(x, 2), Pad(h', 2), Pad(m', 2), Pad(x', 2), ":");
  }

  lemma TwoDigits(m: nat, n: nat)
    requires m < 100 && n < 100
    ensures |Pad(m, 2)| == 2 && |Pad(n, 2)| == 2
    ensures Less(Pad(m, 2), Pad(n, 2)) <==> m < n
    ensures Pad(m, 2) == Pad(n, 2) <==> m == n
  {
    Pow10Small();
    PadShape(m, 2);
    PadShape(n, 2);
    PadOrder(m, n, 2);
  }

  /** Chronological order is string order, for a date and a time on it. */
  lemma DayTimeOrder(a: Date, s: nat, b: Date, t: nat)
    requires ValidDate(a) && ValidDate(b) && s < 86_400 && t < 86_400
    ensures Less(DateText(a) + " " + TimeText(s), DateText(b) + " " + TimeText(t))
            <==> DayOf(a) * 86_400 + s < DayOf(b) * 86_400 + t
  {
    DateTextOrder(a, b);
    DateTextOrder(b, a);
    TimeTextOrder(s, t);
    SeparatedOrder(DateText(a), TimeText(s), DateText(b), TimeText(t), " ");
    if DayOf(a) == DayOf(b) { DateOfDayOf(a); DateOfDayOf(b); }
  }

  /** What the two texts look like, digit by digit. */
  lemma TextsSpelledOut(d: Date, h: nat, m: nat, x: nat)
    requires ValidDate(d) && h < 24 && m < 60 && x < 60
    ensures var y := d.year;
            DateText(d) == [DigitChar(y / 1000), DigitChar(y / 100 % 10), DigitChar(y / 10 % 10), DigitChar(y % 10), '-',
                            DigitChar(d.month / 10), DigitChar(d.month % 10), '-',
                            DigitChar(d.day / 10), DigitChar(d.day % 10)]
    ensures TimeText(3600 * h + 60 * m + x)
            == [DigitChar(h / 10), DigitChar(h % 10), ':', DigitChar(m / 10), DigitChar(m % 10), ':',
                DigitChar(x / 10), DigitChar(x % 10)]
  {
    FourDigitText(d.year);
    TwoDigitText(d.month);
    TwoDigitText(d.day);
    TimeTextOf(h, m, x);
    TwoDigitText(h);
    TwoDigitText(m);
    TwoDigitText(x);
  }

  lemma TwoDigitText(n: nat)
    requires n < 100
    ensures Pad(n, 2) == [DigitChar(n / 10), DigitChar(n % 10)]
  {
    PadTwo(n, n / 10, n % 10);
  }

  lemma PadTwo(n: nat, tens: nat, units: nat)
    requires tens < 10 && units < 10 && n / 10 == tens && n % 10 == units
    ensures Pad(n, 2) == [DigitChar(tens), DigitChar(units)]
  {
    assert tens / 10 == 0 && tens % 10 == tens;
    assert Pad(tens, 1) == Pad(0, 0) + [DigitChar(tens)];
  }

  lemma FourDigitText(n: nat)
    requires n < 10000
    ensures Pad(n, 4) == [DigitChar(n / 1000), DigitChar(n / 100 % 10), DigitChar(n / 10 % 10), DigitChar(n % 10)]
  {
    var hundreds := n / 100;
    assert n / 10 / 10 == hundreds && hundreds / 10 == n / 1000;
    TwoDigitText(hundreds);
    assert Pad(n, 4) == Pad(n / 10, 3) + [DigitChar(n % 10)];
    assert Pad(n / 10, 3) == Pad(n / 10 / 10, 2) + [DigitChar(n / 10 % 10)];
  }

  // ---------------------------------------------------------------- parsing

  /** A first field of `w` characters and two of two, all digits, with separators between. */
  function Fields(s: string, w: nat, sep: char): Option<(string, string, string)> {
    if |s| == w + 6 && s[w] == sep && s[w + 3] == sep
       && AllDigits(s[..w]) && AllDigits(s[w + 1..w + 3]) && AllDigits(s[w + 4..])
    then Some((s[..w], s[w + 1..w + 3], s[w + 4..]))
    else None
  }

  lemma FieldsCanonical(s: string, w: nat, sep: char)
    requires Fields(s, w, sep).Some?
    ensures var (p, q, r) := Fields(s, w, sep).value;
            && AllDigits(p) && AllDigits(q) && AllDigits(r) && |p| == w && |q| == 2 && |r| == 2
            && s == p + [sep] + q + [sep] + r
            && Pad(Number(p), w) == p && Pad(Number(q), 2) == q && Pad(Number(r), 2) == r
  {
    var (p, q, r) := Fields(s, w, sep).value;
    PadOfNumber(p); PadOfNumber(q); PadOfNumber(r);
    assert s == p + [sep] + q + [sep] + r;
  }

  lemma FieldsOfPads(a: nat, b: nat, c: nat, w: nat, sep: char)
    requires a < Pow10(w) && b < 100 && c < 100
    ensures var s := Pad(a, w) + [sep] + Pad(b, 2) + [sep] + Pad(c, 2);
            Fields(s, w, sep) == Some((Pad(a, w), Pad(b, 2), Pad(c, 2)))
    ensures AllDigits(Pad(a, w)) && AllDigits(Pad(b, 2)) && AllDigits(Pad(c, 2))
    ensures Number(Pad(a, w)) == a && Number(Pad(b, 2)) == b && Number(Pad(c, 2)) == c
  {
    Pow10Small();
    PadShape(a, w); PadShape(b, 2); PadShape(c, 2);
    NumberOfPad(a, w); NumberOfPad(b, 2); NumberOfPad(c, 2);
    FieldsOfParts(Pad(a, w), Pad(b, 2), Pad(c, 2), w, sep);
  }

  lemma FieldsOfParts(p: string, q: string, r: string, w: nat, sep: char)
    requires |p| == w && |q| == 2 && |r| == 2 && AllDigits(p) && AllDigits(q) && AllDigits(r)
    ensures Fields(p + [sep] + q + [sep] + r, w, sep) == Some((p, q, r))
  {
    var s := p + [sep] + q + [sep] + r;
    assert s[..w] == p && s[w + 1..w + 3] == q && s[w + 4..] == r;
  }

  function ParseDate(s: string): Option<Date> {
    match Fields(s, 4, '-')
    case None => None
    case Some((y, m, d)) =>
      var date := Date(Number(y), Number(m), Number(d));
      if ValidDate(date) then Some(date) else None
  }

  /** Second of day of an "HH:MM:SS" string. */
  function ParseTime(s: string): Option<nat> {
    match Fields(s, 2, ':')
    case None => None
    case Some((h, m, x)) =>
      if Number(h) < 24 && Number(m) < 60 && Number(x) < 60
      then Some(3600 * Number(h) + 60 * Number(m) + Number(x)) else None
  }

  /** Epoch second of a "%Y-%m-%d %H:%M:%S" string. */
  function ParseStamp(s: string): Option<int> {
    if |s| == 19 && s[10] == ' ' then
      match (ParseDate(s[..10]), ParseTime(s[11..]))
      case (Some(d), Some(t)) => Some(DayOf(d) * 86_400 + t)
      case _ => None
    else None
  }

  /** The strict grammar has one spelling per date ... */
  lemma ParseDateCanonical(s: string)
    requires ParseDate(s).Some?
    ensures ValidDate(ParseDate(s).value) && DateText(ParseDate(s).value) == s
  {
    FieldsCanonical(s, 4, '-');
  }

  lemma TimeTextOf(h: nat, m: nat, x: nat)
    requires h < 24 && m < 60 && x < 60
    ensures var v := 3600 * h + 60 * m + x;
            v < 86_400 && TimeText(v) == Pad(h, 2) + ":" + Pad(m, 2) + ":" + Pad(x, 2)
  {
    ClockRecompose(h, m, x);
  }

  lemma ParseTimeCanonical(s: string)
    requires ParseTime(s).Some?
    ensures ParseTime(s).value < 86_400 && TimeText(ParseTime(s).value) == s
  {
    FieldsCanonical(s, 2, ':');
    var (h, m, x) := Fields(s, 2, ':').value;
    TimeTextOf(Number(h), Number(m), Number(x));
  }

  /** ... and reads back every date it can print. */
  lemma ParseDateText(d: Date)
    requires ValidDate(d)
    ensures ParseDate(DateText(d)) == Some(d)
  {
    Pow10Small();
    FieldsOfPads(d.year, d.month, d.day, 4, '-');
  }

  lemma ParseTimeText(t: nat)
    requires t < 86_400
    ensures ParseTime(TimeText(t)) == Some(t)
  {
    Pow10Small();
    ClockFields(t);
    FieldsOfPads(t / 3600, t / 60 % 60, t % 60, 2, ':');
  }

  lemma ParseStampParts(p: string, q: string, d: Date, t: nat)
    requires |p| == 10 && |q| == 8 && ParseDate(p) == Some(d) && ParseTime(q) == Some(t)
    ensures ValidDate(d) && ParseStamp(p + " " + q) == Some(DayOf(d) * 86_400 + t)
  {
    var s := p + " " + q;
    assert s[..10] == p && s[11..] == q;
  }

  lemma ParseDayTime(d: Date, t: nat)
    requires ValidDate(d) && t < 86_400
    ensures ParseStamp(DateText(d) + " " + TimeText(t)) == Some(DayOf(d) * 86_400 + t)
  {
    ParseDateText(d);
    ParseTimeText(t);
    DateTextOrder(d, d);
    TimeTextOrder(t, t);
    ParseStampParts(DateText(d), TimeText(t), d, t);
  }
}
