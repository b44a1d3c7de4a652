/** The calendar of the stored timestamps, checked against the closed form of the Gregorian count of days
    and against what the string's digits read back as. */
module Calendar {
  import opened Text
  import opened QueueClock
  import D = Decimal

  predicate GregorianLeap(y: nat) {
    y % 400 == 0 || (y % 4 == 0 && y % 100 != 0)
  }

  /** The days before 1 January of year `y`, from 1 January of year 1. */
  function DaysBefore(y: nat): int
    requires y >= 1
  {
    365 * (y - 1) + (y - 1) / 4 - (y - 1) / 100 + (y - 1) / 400
  }

  const COMMON_STARTS := [0, 31, 59, 90, 120, 151, 181, 212, 243, 273, 304, 334, 365]

  /** The days of year `y` before the first of month `m`; month 13 is the next January. */
  function MonthStart(y: nat, m: nat): nat
    requires 1 <= m <= 13
  {
    COMMON_STARTS[m - 1] + if GregorianLeap(y) && m > 2 then 1 else 0
  }

  lemma Quarters(y: nat)
    requires y >= 1
    ensures y / 4 == (y - 1) / 4 + if y % 4 == 0 then 1 else 0
  {
  }

  lemma Centuries(y: nat)
    requires y >= 1
    ensures y / 100 == (y - 1) / 100 + if y % 100 == 0 then 1 else 0
  {
    var q, r := y / 100, y % 100;
    assert y == 100 * q + r;
    assert r > 0 ==> (y - 1) / 100 == q;
  }

  lemma Quadricentennials(y: nat)
    requires y >= 1
    ensures y / 400 == (y - 1) / 400 + if y % 400 == 0 then 1 else 0
  {
    var q, r := y / 400, y % 400;
    assert y == 400 * q + r;
    assert r > 0 ==> (y - 1) / 400 == q;
  }

  lemma CenturiesAreQuarters(y: nat)
    ensures y % 100 == 0 ==> y % 4 == 0
    ensures y % 400 == 0 ==> y % 100 == 0
  {
    var q, z := y / 100, y / 400;
    assert y % 100 == 0 ==> y == 4 * (25 * q);
    assert y % 400 == 0 ==> y == 100 * (4 * z);
  }

  lemma YearSteps(y: nat)
    requires y >= 1
    ensures DaysBefore(y + 1) - DaysBefore(y) == if GregorianLeap(y) then 366 else 365
  {
    Quarters(y);
    Centuries(y);
    Quadricentennials(y);
    CenturiesAreQuarters(y);
  }

  lemma LeapIs(y: nat)
    ensures IsLeap(y) <==> GregorianLeap(y)
  {
    CenturiesAreQuarters(y);
  }

  lemma CommonMonths(m: nat)
    requires 1 <= m <= 12
    ensures COMMON_STARTS[m] - COMMON_STARTS[m - 1]
            == if m == 2 then 28 else if m == 4 || m == 6 || m == 9 || m == 11 then 30 else 31
  {
  }

  lemma MonthLengthIs(y: nat, m: nat)
    requires 1 <= m <= 12
    ensures MonthLength(y, m) == MonthStart(y, m + 1) - MonthStart(y, m)
  {
    LeapIs(y);
    CommonMonths(m);
  }

  lemma {:induction false} DaysLeftIs(y: nat, m: nat)
    requires 1 <= m <= 13
    ensures DaysLeft(y, m) == MonthStart(y, 13) - MonthStart(y, m)
    decreases 13 - m
  {
    if m <= 12 {
      MonthLengthIs(y, m);
      DaysLeftIs(y, m + 1);
    }
  }

  lemma YearLengthIs(y: nat)
    requires y >= 1
    ensures YearLength(y) == DaysBefore(y + 1) - DaysBefore(y)
  {
    DaysLeftIs(y, 1);
    YearSteps(y);
  }

  lemma {:induction false} YearOfIs(n: nat, y: nat)
    requires y >= 1
    ensures var (z, d) := YearOf(n, y); z >= y && DaysBefore(z) + d == DaysBefore(y) + n && d < YearLength(z)
    decreases n
  {
    YearNotEmpty(y);
    YearLengthIs(y);
    if n >= YearLength(y) { YearOfIs(n - YearLength(y), y + 1); }
  }

  lemma {:induction false} MonthOfIs(n: nat, y: nat, m: nat)
    requires 1 <= m <= 12 && n < DaysLeft(y, m)
    ensures var (k, d) := MonthOf(n, y, m);
            m <= k <= 12 && MonthStart(y, k) + d == MonthStart(y, m) + n && d < MonthLength(y, k)
    decreases 13 - m
  {
    MonthLengthIs(y, m);
    if n >= MonthLength(y, m) { MonthOfIs(n - MonthLength(y, m), y, m + 1); }
  }

  /** The date of a day number is a date of the calendar, and counting its days gives the number back. */
  lemma DateOfIsGregorian(n: nat)
    ensures var d := DateOf(n);
            && d.year >= 1 && 1 <= d.month <= 12
            && 1 <= d.day <= MonthStart(d.year, d.month + 1) - MonthStart(d.year, d.month)
            && n == DaysBefore(d.year) + MonthStart(d.year, d.month) + d.day - 1
  {
    YearOfIs(n, 1);
    YearOfInYear(n, 1);
    var (y, inYear) := YearOf(n, 1);
    MonthOfIs(inYear, y, 1);
    MonthLengthIs(y, MonthOf(inYear, y, 1).0);
  }

  lemma TimeOfDayIs(r: nat)
    requires r < 86_400_000_000
    ensures var h, mi, s, us := r / 3_600_000_000, r / 60_000_000 % 60, r / 1_000_000 % 60, r % 1_000_000;
            r == ((h * 60 + mi) * 60 + s) * 1_000_000 + us && h < 24 && mi < 60 && s < 60 && us < 1_000_000
  {
    assert r / 1_000_000 / 60 == r / 60_000_000;
    assert r / 60_000_000 / 60 == r / 3_600_000_000;
  }

  /** The fields of an instant, in microseconds since the start of year 1, add up to it. */
  lemma DateTimeAddsUp(t: nat)
    ensures var d := AsDateTime(t);
            && d.date.year >= 1 && 1 <= d.date.month <= 12
            && var days := DaysBefore(d.date.year) + MonthStart(d.date.year, d.date.month) + d.date.day - 1;
            && t == days * 86_400_000_000 + ((d.hour * 60 + d.minute) * 60 + d.second) * 1_000_000 + d.micro
            && d.hour < 24 && d.minute < 60 && d.second < 60 && d.micro < 1_000_000
  {
    DateOfIsGregorian(t / DAY);
    TimeOfDayIs(t % DAY);
  }

  // ---------------------------------------------------------------- the string

  lemma ParseLast(t: string, s: string, c: char)
    requires IsDigit(c) && t != "" && t[..|t| - 1] == s && t[|t| - 1] == c && s != "" && s[|s| - 1] != '_'
    ensures D.ParseDigits(t) == match D.ParseDigits(s)
                                case Some(n) => Some(n * 10 + (c as int - '0' as int))
                                case None => None
  {
  }

  lemma ParseOneMore(s: string, c: char)
    requires IsDigit(c) && s != "" && s[|s| - 1] != '_' && D.ParseDigits(s).Some?
    ensures D.ParseDigits(s + [c]) == Some(D.ParseDigits(s).value * 10 + (c as int - '0' as int))
  {
    ParseLast(s + [c], s, c);
  }

  /** Padded digits read back as the number. */
  lemma {:induction false} PaddedReadsBack(n: nat, w: nat)
    requires w >= 1 && n < Pow10(w)
    ensures D.ParseDigits(Padded(n, w)) == Some(n) && |Padded(n, w)| == w && Padded(n, w)[w - 1] != '_'
  {
    if w == 1 {
      assert Padded(n / 10, 0) == "" && Padded(n, 1) == "" + [D.DigitOf(n % 10)] == [D.DigitOf(n)];
      assert Pow10(1) == 10;
    } else {
      PaddedReadsBack(n / 10, w - 1);
      ParseOneMore(Padded(n / 10, w - 1), D.DigitOf(n % 10));
    }
  }

  /** A text ends, from `a` on, in a number of `w` digits and a mark. */
  predicate HasField(s: string, a: nat, w: nat, n: nat, mark: char) {
    a + w < |s| && D.ParseDigits(s[a..a + w]) == Some(n) && s[a + w] == mark
  }

  lemma FieldIsThere(before: string, n: nat, w: nat, mark: char)
    requires w >= 1 && n < Pow10(w)
    ensures |before + Field(n, w, mark)| == |before| + w + 1
    ensures HasField(before + Field(n, w, mark), |before|, w, n, mark)
  {
    var s, a := before + Field(n, w, mark), |before|;
    PaddedReadsBack(n, w);
    assert s[a..a + w] == Padded(n, w);
  }

  lemma FieldStays(p: string, rest: string, a: nat, w: nat, n: nat, mark: char)
    requires HasField(p, a, w, n, mark)
    ensures HasField(p + rest, a, w, n, mark)
  {
    SliceOfPrefix(p, rest, a, a + w);
  }

  /** The string of a timestamp: year, month, day, hour, minute, second and millisecond, each in its
      place, between the marks that ISO 8601 puts there. */
  lemma IsoReadsBack(t: nat)
    requires FourDigitYear(t)
    ensures var d, s := AsDateTime(t), Iso(AsDateTime(t));
            && |s| == 24
            && HasField(s, 0, 4, d.date.year, '-') && HasField(s, 5, 2, d.date.month, '-')
            && HasField(s, 8, 2, d.date.day, 'T')
            && HasField(s, 11, 2, d.hour, ':') && HasField(s, 14, 2, d.minute, ':')
            && HasField(s, 17, 2, d.second, '.') && HasField(s, 20, 3, d.micro / 1000, 'Z')
  {
    FieldsInRange(t);
    var d := AsDateTime(t);
    DateFields(d.date);
    TimeFields(d, IsoDate(d.date));
  }

  lemma DateFields(d: Date)
    requires d.year < 10000 && d.month < 100 && d.day < 100
    ensures |IsoDate(d)| == 11 && HasField(IsoDate(d), 0, 4, d.year, '-')
    ensures HasField(IsoDate(d), 5, 2, d.month, '-') && HasField(IsoDate(d), 8, 2, d.day, 'T')
  {
    assert Pow10(2) == 100 && Pow10(4) == 10000;
    var y, m, k := Field(d.year, 4, '-'), Field(d.month, 2, '-'), Field(d.day, 2, 'T');
    FieldIsThere("", d.year, 4, '-');
    EmptyIsUnit(y);
    FieldIsThere(y, d.month, 2, '-');
    FieldIsThere(y + m, d.day, 2, 'T');
    FieldStays(y, m, 0, 4, d.year, '-');
    FieldStays(y + m, k, 0, 4, d.year, '-');
    FieldStays(y + m, k, 5, 2, d.month, '-');
  }

  lemma TimeFields(d: DateTime, p: string)
    requires d.hour < 100 && d.minute < 100 && d.second < 100 && d.micro / 1000 < 1000 && |p| == 11
    ensures var s := p + Field(d.hour, 2, ':') + Field(d.minute, 2, ':') + Field(d.second, 2, '.')
                     + Field(d.micro / 1000, 3, 'Z');
            && |s| == 24 && (forall a, w, n, mark :: HasField(p, a, w, n, mark) ==> HasField(s, a, w, n, mark))
            && HasField(s, 11, 2, d.hour, ':') && HasField(s, 14, 2, d.minute, ':')
            && HasField(s, 17, 2, d.second, '.') && HasField(s, 20, 3, d.micro / 1000, 'Z')
  {
    assert Pow10(2) == 100 && Pow10(3) == 1000;
    var h, mi, sec, ms := Field(d.hour, 2, ':'), Field(d.minute, 2, ':'), Field(d.second, 2, '.'),
                          Field(d.micro / 1000, 3, 'Z');
    FieldIsThere(p, d.hour, 2, ':');
    FieldIsThere(p + h, d.minute, 2, ':');
    FieldIsThere(p + h + mi, d.second, 2, '.');
    FieldIsThere(p + h + mi + sec, d.micro / 1000, 3, 'Z');
    FieldStays(p + h, mi, 11, 2, d.hour, ':');
    FieldStays(p + h + mi, sec, 11, 2, d.hour, ':');
    FieldStays(p + h + mi + sec, ms, 11, 2, d.hour, ':');
    FieldStays(p + h + mi, sec, 14, 2, d.minute, ':');
    FieldStays(p + h + mi + sec, ms, 14, 2, d.minute, ':');
    FieldStays(p + h + mi + sec, ms, 17, 2, d.second, '.');
    forall a, w, n, mark | HasField(p, a, w, n, mark) ensures HasField(p + h + mi + sec + ms, a, w, n, mark) {
      FieldStays(p, h, a, w, n, mark);
      FieldStays(p + h, mi, a, w, n, mark);
      FieldStays(p + h + mi, sec, a, w, n, mark);
      FieldStays(p + h + mi + sec, ms, a, w, n, mark);
    }
  }
}
