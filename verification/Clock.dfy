/** The queue's clock, ratcheted forward only, and its timestamps, compared as strings. */
module QueueClock {
  import opened Text
  import opened Decimal

  // ---------------------------------------------------------------- the ratchet

  /** One look at the machine: wall clock and monotonic clock, in microseconds. */
  datatype Tick = Tick(wall: int, mono: nat) {
    function Offset(): int { wall - mono }
  }

  /** The monotonic clock never goes back, and no offset falls before `datetime.min` (0 here). */
  ghost predicate ValidTicks(ticks: seq<Tick>) {
    && (forall i :: 0 <= i < |ticks| ==> ticks[i].Offset() >= 0)
    && (forall i, j :: 0 <= i < j < |ticks| ==> ticks[i].mono <= ticks[j].mono)
  }

  class Clock {
    var nowEpoch: int
    ghost var ticks: seq<Tick>

    ghost predicate Valid()
      reads this
    {
      && nowEpoch >= 0
      && (forall i :: 0 <= i < |ticks| ==> ticks[i].Offset() <= nowEpoch)
      && (nowEpoch > 0 ==> exists i :: 0 <= i < |ticks| && ticks[i].Offset() == nowEpoch)
    }

    constructor ()
      ensures Valid() && ticks == []
    {
      nowEpoch, ticks := 0, [];
    }

    /** The clock after one more reading has seen one more tick, and returns the reading of them all. */
    method Now(tick: Tick) returns (t: int)
      requires Valid() && ValidTicks(ticks + [tick])
      modifies this
      ensures Valid() && ticks == old(ticks) + [tick]
      ensures IsReading(ticks, t)
    {
      ghost var seen := ticks;
      ticks := ticks + [tick];
      assert ticks[|seen|] == tick;
      assert forall i :: 0 <= i < |seen| ==> ticks[i] == seen[i];
      if nowEpoch < tick.wall - tick.mono {
        nowEpoch := tick.wall - tick.mono;
      }
      t := nowEpoch + tick.mono;
    }
  }

  /** `t` is the greatest offset seen so far, plus the monotonic clock now. */
  ghost predicate IsReading(ticks: seq<Tick>, t: int) {
    && ticks != []
    && var top := t - ticks[|ticks| - 1].mono;
       && (forall i :: 0 <= i < |ticks| ==> ticks[i].Offset() <= top)
       && (exists i :: 0 <= i < |ticks| && ticks[i].Offset() == top)
  }

  /** For any steps of the wall clock: a later reading is never less, and no reading is behind
      the wall clock it was taken at. */
  lemma ReadingsNeverDecrease(ticks: seq<Tick>, m: nat, n: nat, tm: int, tn: int)
    requires ValidTicks(ticks) && m <= n < |ticks|
    requires IsReading(ticks[..m + 1], tm) && IsReading(ticks[..n + 1], tn)
    ensures tm <= tn
    ensures ticks[n].wall <= tn
  {
    var early, late := ticks[..m + 1], ticks[..n + 1];
    var i :| 0 <= i < |early| && early[i].Offset() == tm - early[m].mono;
    assert late[i] == early[i];
    assert late[n].Offset() <= tn - late[n].mono;
  }

  // ---------------------------------------------------------------- the calendar

  datatype Date = Date(year: nat, month: nat, day: nat)

  datatype DateTime = DateTime(date: Date, hour: nat, minute: nat, second: nat, micro: nat)

  predicate IsLeap(y: nat) {
    y % 4 == 0 && (y % 100 != 0 || y % 400 == 0)
  }

  function MonthLength(y: nat, m: nat): nat {
    if m == 2 then if IsLeap(y) then 29 else 28
    else if m == 4 || m == 6 || m == 9 || m == 11 then 30
    else 31
  }

  /** Days from the first of month `m` to the end of the year. */
  function DaysLeft(y: nat, m: nat): nat
    decreases 13 - m
  {
    if m > 12 then 0 else MonthLength(y, m) + DaysLeft(y, m + 1)
  }

  function YearLength(y: nat): nat {
    DaysLeft(y, 1)
  }

  /** The year, counting from `y`, that holds day `n`, and the day within that year. */
  function YearOf(n: nat, y: nat): (nat, nat)
    decreases n
  {
    YearNotEmpty(y);
    if n < YearLength(y) then (y, n) else YearOf(n - YearLength(y), y + 1)
  }

  lemma YearNotEmpty(y: nat)
    ensures YearLength(y) > 0
  {
  }

  function MonthOf(n: nat, y: nat, m: nat): (nat, nat)
    requires n < DaysLeft(y, m)
    decreases 13 - m
  {
    if n < MonthLength(y, m) then (m, n) else MonthOf(n - MonthLength(y, m), y, m + 1)
  }

  lemma {:induction false} YearOfInYear(n: nat, y: nat)
    ensures YearOf(n, y).0 >= y && YearOf(n, y).1 < YearLength(YearOf(n, y).0)
    decreases n
  {
    YearNotEmpty(y);
    if n >= YearLength(y) { YearOfInYear(n - YearLength(y), y + 1); }
  }

  /** The proleptic Gregorian date of a day number; day 0 is 1 January of year 1. */
  function DateOf(n: nat): Date {
    YearOfInYear(n, 1);
    var (y, inYear) := YearOf(n, 1);
    var (m, inMonth) := MonthOf(inYear, y, 1);
    Date(y, m, inMonth + 1)
  }

  const DAY := 86_400_000_000

  function AsDateTime(t: nat): DateTime {
    var r := t % DAY;
    DateTime(DateOf(t / DAY), r / 3_600_000_000, r / 60_000_000 % 60, r / 1_000_000 % 60, r % 1_000_000)
  }

  /** A later day has a later year, or the same year and a later day in it. */
  lemma {:induction false} YearOfOrdered(a: nat, b: nat, y: nat)
    requires a < b
    ensures YearOf(a, y).0 < YearOf(b, y).0
            || (YearOf(a, y).0 == YearOf(b, y).0 && YearOf(a, y).1 < YearOf(b, y).1)
    decreases a
  {
    YearNotEmpty(y);
    if a >= YearLength(y) {
      YearOfOrdered(a - YearLength(y), b - YearLength(y), y + 1);
    } else if b >= YearLength(y) {
      YearOfInYear(b - YearLength(y), y + 1);
    }
  }

  lemma {:induction false} MonthOfInMonth(n: nat, y: nat, m: nat)
    requires n < DaysLeft(y, m) && 1 <= m
    ensures m <= MonthOf(n, y, m).0 <= 12 && MonthOf(n, y, m).1 < 31
    decreases 13 - m
  {
    if n >= MonthLength(y, m) { MonthOfInMonth(n - MonthLength(y, m), y, m + 1); }
  }

  lemma {:induction false} MonthOfOrdered(a: nat, b: nat, y: nat, m: nat)
    requires a < b < DaysLeft(y, m) && 1 <= m
    ensures MonthOf(a, y, m).0 < MonthOf(b, y, m).0
            || (MonthOf(a, y, m).0 == MonthOf(b, y, m).0 && MonthOf(a, y, m).1 < MonthOf(b, y, m).1)
    decreases 13 - m
  {
    if a >= MonthLength(y, m) {
      MonthOfOrdered(a - MonthLength(y, m), b - MonthLength(y, m), y, m + 1);
    } else if b >= MonthLength(y, m) {
      MonthOfInMonth(b - MonthLength(y, m), y, m + 1);
    }
  }

  // ---------------------------------------------------------------- timestamps as strings

  function Pow10(w: nat): nat {
    if w == 0 then 1 else 10 * Pow10(w - 1)
  }

  /** `n` in exactly `w` decimal digits. */
  function Padded(n: nat, w: nat): string {
    if w == 0 then "" else Padded(n / 10, w - 1) + [DigitOf(n % 10)]
  }

  function Field(n: nat, w: nat, end: char): string {
    Padded(n, w) + [end]
  }

  function IsoDate(d: Date): string {
    Field(d.year, 4, '-') + Field(d.month, 2, '-') + Field(d.day, 2, 'T')
  }

  /** `strftime("%Y-%m-%dT%H:%M:%S.%f")[:-3] + "Z"` */
  function Iso(d: DateTime): string {
    IsoDate(d.date)
    + Field(d.hour, 2, ':') + Field(d.minute, 2, ':') + Field(d.second, 2, '.') + Field(d.micro / 1000, 3, 'Z')
  }

  lemma {:induction false} PaddedLength(n: nat, w: nat)
    ensures |Padded(n, w)| == w
  {
    if w > 0 { PaddedLength(n / 10, w - 1); }
  }

  /** With prefixes of one length, the prefixes decide unless they are equal. */
  lemma {:induction false} LessByPrefix(p: string, q: string, x: string, y: string)
    requires |p| == |q|
    ensures StringLess(p + x, q + y) <==> StringLess(p, q) || (p == q && StringLess(x, y))
  {
    if p == "" {
      assert p + x == x && q + y == y;
    } else {
      assert (p + x)[1..] == p[1..] + x && (q + y)[1..] == q[1..] + y;
      assert p == q <==> p[0] == q[0] && p[1..] == q[1..];
      LessByPrefix(p[1..], q[1..], x, y);
    }
  }

  lemma {:induction false} PaddedOrdered(m: nat, n: nat, w: nat)
    requires m < Pow10(w) && n < Pow10(w)
    ensures StringLess(Padded(m, w), Padded(n, w)) <==> m < n
    ensures Padded(m, w) == Padded(n, w) <==> m == n
    decreases w
  {
    if w > 0 {
      PaddedOrdered(m / 10, n / 10, w - 1);
      PaddedLength(m / 10, w - 1);
      PaddedLength(n / 10, w - 1);
      var p, q, x, y := Padded(m / 10, w - 1), Padded(n / 10, w - 1), [DigitOf(m % 10)], [DigitOf(n % 10)];
      LessByPrefix(p, q, x, y);
      assert p + x == q + y <==> p == q && x == y by {
        assert (p + x)[..w - 1] == p && (q + y)[..w - 1] == q;
        assert (p + x)[w - 1] == x[0] && (q + y)[w - 1] == y[0];
      }
      assert x[0] < y[0] <==> m % 10 < n % 10;
    }
  }

  /** Strings `p`, `q` of one length stand for numbers `P`, `Q`: they compare alike. */
  ghost predicate Alike(p: string, q: string, P: nat, Q: nat) {
    |p| == |q| && (StringLess(p, q) <==> P < Q) && (p == q <==> P == Q)
  }

  lemma TimesKeepsOrder(P: nat, Q: nat, m: nat, n: nat, k: nat)
    requires m < k && n < k
    ensures P * k + m < Q * k + n <==> P < Q || (P == Q && m < n)
    ensures P * k + m == Q * k + n <==> P == Q && m == n
  {
    if P < Q {
      assert P * k + k <= Q * k by { assert (P + 1) * k <= Q * k; }
    } else if Q < P {
      assert Q * k + k <= P * k by { assert (Q + 1) * k <= P * k; }
    }
  }

  /** Appending one field of fixed width keeps strings and numbers alike. */
  lemma AppendField(p: string, q: string, P: nat, Q: nat, m: nat, n: nat, w: nat, end: char)
    requires Alike(p, q, P, Q) && m < Pow10(w) && n < Pow10(w)
    ensures Alike(p + Field(m, w, end), q + Field(n, w, end), P * Pow10(w) + m, Q * Pow10(w) + n)
  {
    var x, y := Padded(m, w), Padded(n, w);
    PaddedLength(m, w);
    PaddedLength(n, w);
    PaddedOrdered(m, n, w);
    LessByPrefix(x, y, [end], [end]);
    LessByPrefix(p, q, x + [end], y + [end]);
    TimesKeepsOrder(P, Q, m, n, Pow10(w));
    var px, qy := p + (x + [end]), q + (y + [end]);
    assert px == qy <==> p == q && x == y by {
      assert px[..|p|] == p && qy[..|p|] == q;
      assert px[|p|..][..w] == x && qy[|p|..][..w] == y;
    }
  }

  predicate FourDigitYear(t: nat) {
    1000 <= AsDateTime(t).date.year <= 9999
  }

  /** The date read as the number YYYYMMDD, and the time of day as hhmmssmmm. */
  function DateNumber(d: Date): nat {
    (d.year * 100 + d.month) * 100 + d.day
  }

  function TimeNumber(d: DateTime): nat {
    ((d.hour * 100 + d.minute) * 100 + d.second) * 1000 + d.micro / 1000
  }

  lemma FieldsInRange(t: nat)
    requires FourDigitYear(t)
    ensures var d := AsDateTime(t);
            && d.date.year < 10000 && d.date.month < 100 && d.date.day < 100
            && d.hour < 100 && d.minute < 100 && d.second < 100 && d.micro / 1000 < 1000
            && TimeNumber(d) < 1_000_000_000
  {
    var n := t / DAY;
    YearOfInYear(n, 1);
    MonthOfInMonth(YearOf(n, 1).1, YearOf(n, 1).0, 1);
  }

  lemma DateReadsAsNumber(d: Date, e: Date)
    requires d.year < 10000 && d.month < 100 && d.day < 100
    requires e.year < 10000 && e.month < 100 && e.day < 100
    ensures Alike(IsoDate(d), IsoDate(e), DateNumber(d), DateNumber(e))
  {
    assert Pow10(2) == 100 && Pow10(4) == 10000;
    AppendField("", "", 0, 0, d.year, e.year, 4, '-');
    var p, q := Field(d.year, 4, '-'), Field(e.year, 4, '-');
    assert "" + p == p && "" + q == q;
    AppendField(p, q, d.year, e.year, d.month, e.month, 2, '-');
    p, q := p + Field(d.month, 2, '-'), q + Field(e.month, 2, '-');
    AppendField(p, q, d.year * 100 + d.month, e.year * 100 + e.month, d.day, e.day, 2, 'T');
  }

  /** The time of day after strings and numbers that are alike. */
  lemma TimeReadsAsNumber(d: DateTime, e: DateTime, p: string, q: string, P: nat, Q: nat)
    requires Alike(p, q, P, Q)
    requires d.hour < 100 && d.minute < 100 && d.second < 100 && d.micro / 1000 < 1000
    requires e.hour < 100 && e.minute < 100 && e.second < 100 && e.micro / 1000 < 1000
    ensures Alike(p + Field(d.hour, 2, ':') + Field(d.minute, 2, ':') + Field(d.second, 2, '.')
                    + Field(d.micro / 1000, 3, 'Z'),
                  q + Field(e.hour, 2, ':') + Field(e.minute, 2, ':') + Field(e.second, 2, '.')
                    + Field(e.micro / 1000, 3, 'Z'),
                  (((P * 100 + d.hour) * 100 + d.minute) * 100 + d.second) * 1000 + d.micro / 1000,
                  (((Q * 100 + e.hour) * 100 + e.minute) * 100 + e.second) * 1000 + e.micro / 1000)
  {
    assert Pow10(2) == 100 && Pow10(3) == 1000;
    var p0, q0, P0, Q0 := p, q, P, Q;
    AppendField(p0, q0, P0, Q0, d.hour, e.hour, 2, ':');
    p0, q0, P0, Q0 := p0 + Field(d.hour, 2, ':'), q0 + Field(e.hour, 2, ':'), P0 * 100 + d.hour, Q0 * 100 + e.hour;
    AppendField(p0, q0, P0, Q0, d.minute, e.minute, 2, ':');
    p0, q0 := p0 + Field(d.minute, 2, ':'), q0 + Field(e.minute, 2, ':');
    P0, Q0 := P0 * 100 + d.minute, Q0 * 100 + e.minute;
    AppendField(p0, q0, P0, Q0, d.second, e.second, 2, '.');
    p0, q0 := p0 + Field(d.second, 2, '.'), q0 + Field(e.second, 2, '.');
    P0, Q0 := P0 * 100 + d.second, Q0 * 100 + e.second;
    AppendField(p0, q0, P0, Q0, d.micro / 1000, e.micro / 1000, 3, 'Z');
  }

  lemma IsoReadsAsNumber(a: nat, b: nat)
    requires FourDigitYear(a) && FourDigitYear(b)
    ensures var d, e := AsDateTime(a), AsDateTime(b);
            Alike(Iso(d), Iso(e), DateNumber(d.date) * 1_000_000_000 + TimeNumber(d),
                  DateNumber(e.date) * 1_000_000_000 + TimeNumber(e))
  {
    var d, e := AsDateTime(a), AsDateTime(b);
    FieldsInRange(a);
    FieldsInRange(b);
    DateReadsAsNumber(d.date, e.date);
    TimeReadsAsNumber(d, e, IsoDate(d.date), IsoDate(e.date), DateNumber(d.date), DateNumber(e.date));
  }

  lemma DateNumberOrdered(a: nat, b: nat)
    ensures DateNumber(DateOf(a)) < DateNumber(DateOf(b)) <==> a < b
    ensures DateNumber(DateOf(a)) == DateNumber(DateOf(b)) <==> a == b
  {
    if a < b { DateNumberIncreases(a, b); }
    if b < a { DateNumberIncreases(b, a); }
  }

  lemma DateNumberIncreases(a: nat, b: nat)
    requires a < b
    ensures DateNumber(DateOf(a)) < DateNumber(DateOf(b))
  {
    YearOfInYear(a, 1);
    YearOfInYear(b, 1);
    YearOfOrdered(a, b, 1);
    var (ya, na) := YearOf(a, 1);
    var (yb, nb) := YearOf(b, 1);
    MonthOfInMonth(na, ya, 1);
    MonthOfInMonth(nb, yb, 1);
    if ya == yb { MonthOfOrdered(na, nb, ya, 1); }
  }

  lemma TimeNumberOrdered(a: nat, b: nat)
    ensures TimeNumber(AsDateTime(a)) < TimeNumber(AsDateTime(b)) <==> a % DAY / 1000 < b % DAY / 1000
    ensures TimeNumber(AsDateTime(a)) == TimeNumber(AsDateTime(b)) <==> a % DAY / 1000 == b % DAY / 1000
  {
    TimeParts(a % DAY);
    TimeParts(b % DAY);
    var d, e := AsDateTime(a), AsDateTime(b);
    MixedRadix(d.hour, d.minute, d.second, d.micro / 1000, e.hour, e.minute, e.second, e.micro / 1000);
  }

  lemma MixedRadix(h: nat, m: nat, s: nat, ms: nat, h': nat, m': nat, s': nat, ms': nat)
    requires m < 60 && s < 60 && ms < 1000 && m' < 60 && s' < 60 && ms' < 1000
    ensures ((h * 60 + m) * 60 + s) * 1000 + ms < ((h' * 60 + m') * 60 + s') * 1000 + ms'
            <==> ((h * 100 + m) * 100 + s) * 1000 + ms < ((h' * 100 + m') * 100 + s') * 1000 + ms'
    ensures ((h * 60 + m) * 60 + s) * 1000 + ms == ((h' * 60 + m') * 60 + s') * 1000 + ms'
            <==> ((h * 100 + m) * 100 + s) * 1000 + ms == ((h' * 100 + m') * 100 + s') * 1000 + ms'
  {
    assert h * 60 + m < h' * 60 + m' <==> h * 100 + m < h' * 100 + m';
    assert h * 60 + m == h' * 60 + m' <==> h * 100 + m == h' * 100 + m';
    var a, a', b, b' := h * 60 + m, h' * 60 + m', h * 100 + m, h' * 100 + m';
    assert a * 60 + s < a' * 60 + s' <==> b * 100 + s < b' * 100 + s';
    assert a * 60 + s == a' * 60 + s' <==> b * 100 + s == b' * 100 + s';
  }

  lemma TimeParts(r: nat)
    requires r < DAY
    ensures var h, mi, s, ms := r / 3_600_000_000, r / 60_000_000 % 60, r / 1_000_000 % 60, r % 1_000_000 / 1000;
            r / 1000 == ((h * 60 + mi) * 60 + s) * 1000 + ms && mi < 60 && s < 60 && ms < 1000
  {
    assert r / 1_000_000 / 60 == r / 60_000_000;
    assert r / 60_000_000 / 60 == r / 3_600_000_000;
  }

  /** Millisecond timestamps compare as strings exactly as their instants do in time. */
  lemma TimestampsCompareInTimeOrder(a: nat, b: nat)
    requires FourDigitYear(a) && FourDigitYear(b)
    ensures StringLess(Iso(AsDateTime(a)), Iso(AsDateTime(b))) <==> a / 1000 < b / 1000
    ensures Iso(AsDateTime(a)) == Iso(AsDateTime(b)) <==> a / 1000 == b / 1000
  {
    IsoReadsAsNumber(a, b);
    FieldsInRange(a);
    FieldsInRange(b);
    DateNumberOrdered(a / DAY, b / DAY);
    TimeNumberOrdered(a, b);
    SplitByDay(a);
    SplitByDay(b);
  }

  lemma SplitByDay(t: nat)
    ensures t / 1000 == t / DAY * 86_400_000 + t % DAY / 1000 && t % DAY / 1000 < 86_400_000
  {
  }

  /** A job stamped at one reading is due at that reading and every later one: the claim's
      string test `next_attempt_at <= now` cannot miss it. */
  lemma EnqueuedJobIsDue(ticks: seq<Tick>, m: nat, n: nat, tm: nat, tn: nat)
    requires ValidTicks(ticks) && m <= n < |ticks|
    requires IsReading(ticks[..m + 1], tm) && IsReading(ticks[..n + 1], tn)
    requires FourDigitYear(tm) && FourDigitYear(tn)
    ensures !StringLess(Iso(AsDateTime(tn)), Iso(AsDateTime(tm)))
  {
    ReadingsNeverDecrease(ticks, m, n, tm, tn);
    TimestampsCompareInTimeOrder(tn, tm);
  }
}
