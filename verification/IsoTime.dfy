/** `datetime.now(timezone.utc).isoformat()`: the text of an instant, and why comparing texts compares instants. */
module IsoTime {
  import opened Decimals
  import opened Text

  const MICROS_PER_DAY := 86_400_000_000
  const LAST_YEAR := 9999

  function DaysBeforeYear(y: int): int {
    365 * (y - 1) + (y - 1) / 4 - (y - 1) / 100 + (y - 1) / 400
  }

  predicate IsLeap(y: int) {
    y % 4 == 0 && (y % 100 != 0 || y % 400 == 0)
  }

  function DaysBeforeMonth(y: int, m: int): int
    requires 1 <= m <= 13
  {
    var leap := if IsLeap(y) && m > 2 then 1 else 0;
    leap + [0, 31, 59, 90, 120, 151, 181, 212, 243, 273, 304, 334, 365][m - 1]
  }

  /** Microseconds since 0001-01-01T00:00:00 UTC, up to the end of the last year `datetime` can hold. */
  type Instant = t: int | 0 <= t < DaysBeforeYear(LAST_YEAR + 1) * MICROS_PER_DAY witness 0

  lemma YearLength(y: int)
    ensures DaysBeforeYear(y + 1) - DaysBeforeYear(y) == if IsLeap(y) then 366 else 365
    ensures DaysBeforeMonth(y, 13) == DaysBeforeYear(y + 1) - DaysBeforeYear(y)
  {
    assert y / 4 - (y - 1) / 4 == if y % 4 == 0 then 1 else 0;
    assert y / 100 - (y - 1) / 100 == if y % 100 == 0 then 1 else 0;
    assert y / 400 - (y - 1) / 400 == if y % 400 == 0 then 1 else 0;
    assert y % 400 == 0 ==> y % 100 == 0;
    assert y % 100 == 0 ==> y % 4 == 0;
  }

  lemma {:induction false} YearsInOrder(y: int, z: int)
    requires y <= z
    ensures DaysBeforeYear(y) <= DaysBeforeYear(z)
    decreases z - y
  {
    if y < z {
      YearLength(z - 1);
      YearsInOrder(y, z - 1);
    }
  }

  lemma {:induction false} MonthsInOrder(y: int, m: int, n: int)
    requires 1 <= m <= n <= 13
    ensures DaysBeforeMonth(y, m) <= DaysBeforeMonth(y, n)
    ensures m < n ==> DaysBeforeMonth(y, m) < DaysBeforeMonth(y, n)
  {
  }

  /** The year, from `y` on, that holds day `d`. */
  function YearFrom(y: int, d: int): (r: int)
    requires DaysBeforeYear(y) <= d
    ensures r >= y && DaysBeforeYear(r) <= d < DaysBeforeYear(r + 1)
    decreases d - DaysBeforeYear(y)
  {
    YearLength(y);
    if d < DaysBeforeYear(y + 1) then y else YearFrom(y + 1, d)
  }

  /** The month, from `m` on, of the `k`-th day of year `y`. */
  function MonthFrom(y: int, m: int, k: int): (r: int)
    requires 1 <= m <= 12 && DaysBeforeMonth(y, m) <= k < DaysBeforeMonth(y, 13)
    ensures m <= r <= 12 && DaysBeforeMonth(y, r) <= k < DaysBeforeMonth(y, r + 1)
    decreases 12 - m
  {
    if k < DaysBeforeMonth(y, m + 1) then m else MonthFrom(y, m + 1, k)
  }

  lemma YearInRange(d: int)
    requires 0 <= d < DaysBeforeYear(LAST_YEAR + 1)
    ensures YearFrom(1, d) <= LAST_YEAR
  {
    if YearFrom(1, d) > LAST_YEAR { YearsInOrder(LAST_YEAR + 1, YearFrom(1, d)); }
  }

  datatype Date = Date(year: int, month: int, day: int) {
    predicate Before(other: Date) {
      || year < other.year
      || (year == other.year && (month < other.month || (month == other.month && day < other.day)))
    }
  }

  datatype Clock = Clock(hour: int, minute: int, second: int, micro: int) {
    predicate Valid() {
      0 <= hour < 24 && 0 <= minute < 60 && 0 <= second < 60 && 0 <= micro < 1_000_000
    }

    predicate Before(other: Clock) {
      || hour < other.hour
      || (hour == other.hour && (
        || minute < other.minute
        || (minute == other.minute && (second < other.second || (second == other.second && micro < other.micro)))))
    }
  }

  /** The `k`-th day of year `y`, counted from zero. */
  function DateIn(y: int, k: int): (r: Date)
    requires 0 <= k < DaysBeforeMonth(y, 13)
    ensures r.year == y && 1 <= r.month <= 12 && 1 <= r.day <= 31
  {
    var month := MonthFrom(y, 1, k);
    Date(y, month, 1 + k - DaysBeforeMonth(y, month))
  }

  function DateOf(d: int): (r: Date)
    requires 0 <= d < DaysBeforeYear(LAST_YEAR + 1)
    ensures 1 <= r.year <= LAST_YEAR && 1 <= r.month <= 12 && 1 <= r.day <= 31
  {
    YearInRange(d);
    var year := YearFrom(1, d);
    YearLength(year);
    DateIn(year, d - DaysBeforeYear(year))
  }

  function ClockOf(v: int): (r: Clock)
    requires 0 <= v < MICROS_PER_DAY
    ensures r.Valid()
  {
    var seconds := v / 1_000_000;
    Clock(seconds / 3600, seconds / 60 % 60, seconds % 60, v % 1_000_000)
  }

  lemma DaysInOrder(d: int, e: int)
    requires 0 <= d < e
    ensures
      var y, z := YearFrom(1, d), YearFrom(1, e);
      y < z || (y == z && d - DaysBeforeYear(y) < e - DaysBeforeYear(z))
  {
    var y, z := YearFrom(1, d), YearFrom(1, e);
    if z < y { YearsInOrder(z + 1, y); }
  }

  lemma DatesInOrder(y: int, k: int, l: int)
    requires 0 <= k < l < DaysBeforeMonth(y, 13)
    ensures DateIn(y, k).Before(DateIn(y, l))
  {
    var m, n := MonthFrom(y, 1, k), MonthFrom(y, 1, l);
    if n < m { MonthsInOrder(y, n + 1, m); }
  }

  lemma ClockKeepsOrder(v: int, w: int)
    requires 0 <= v < w < MICROS_PER_DAY
    ensures ClockOf(v).Before(ClockOf(w))
  {
    var s, u := v / 1_000_000, w / 1_000_000;
    assert s / 3600 == s / 60 / 60 && u / 3600 == u / 60 / 60;
    assert s == s / 60 * 60 + s % 60 && u == u / 60 * 60 + u % 60;
    assert s / 60 == s / 60 / 60 * 60 + s / 60 % 60 && u / 60 == u / 60 / 60 * 60 + u / 60 % 60;
  }

  lemma DateKeepsOrder(d: int, e: int)
    requires 0 <= d < e < DaysBeforeYear(LAST_YEAR + 1)
    ensures DateOf(d).Before(DateOf(e))
  {
    DaysInOrder(d, e);
    var y := YearFrom(1, d);
    if y == YearFrom(1, e) {
      YearLength(y);
      DatesInOrder(y, d - DaysBeforeYear(y), e - DaysBeforeYear(y));
    }
  }

  function Pow10(w: nat): int {
    if w == 0 then 1 else 10 * Pow10(w - 1)
  }

  /** `n` in exactly `w` decimal digits. */
  function Pad(n: int, w: nat): (s: string)
    requires 0 <= n < Pow10(w)
    ensures |s| == w
  {
    if w == 0 then "" else Pad(n / 10, w - 1) + [Digit(n % 10)]
  }

  lemma {:induction false} SamePrefix(p: string, s: string, t: string)
    ensures StrLt(p + s, p + t) == StrLt(s, t)
  {
    if p == "" {
      assert p + s == s && p + t == t;
    } else {
      assert (p + s)[1..] == p[1..] + s && (p + t)[1..] == p[1..] + t;
      SamePrefix(p[1..], s, t);
    }
  }

  lemma {:induction false} PrefixDecides(p: string, q: string, s: string, t: string)
    requires |p| == |q| && StrLt(p, q)
    ensures StrLt(p + s, q + t)
  {
    assert p != "" && q != "";
    assert (p + s)[1..] == p[1..] + s && (q + t)[1..] == q[1..] + t;
    if p[0] == q[0] { PrefixDecides(p[1..], q[1..], s, t); }
  }

  lemma {:induction false} PadKeepsOrder(n: int, m: int, w: nat)
    requires 0 <= n < m < Pow10(w)
    ensures StrLt(Pad(n, w), Pad(m, w))
  {
    if w > 0 {
      if n / 10 < m / 10 {
        PadKeepsOrder(n / 10, m / 10, w - 1);
        PrefixDecides(Pad(n / 10, w - 1), Pad(m / 10, w - 1), [Digit(n % 10)], [Digit(m % 10)]);
      } else {
        SamePrefix(Pad(n / 10, w - 1), [Digit(n % 10)], [Digit(m % 10)]);
      }
    }
  }

  /** A padded field in front of the rest of the text: the field decides, or the rest does. */
  lemma FieldDecides(n: int, m: int, w: nat, s: string, t: string)
    requires 0 <= n < Pow10(w) && 0 <= m < Pow10(w)
    ensures n < m ==> StrLt(Pad(n, w) + s, Pad(m, w) + t)
    ensures n == m ==> StrLt(Pad(n, w) + s, Pad(m, w) + t) == StrLt(s, t)
  {
    if n < m {
      PadKeepsOrder(n, m, w);
      PrefixDecides(Pad(n, w), Pad(m, w), s, t);
    } else if n == m {
      SamePrefix(Pad(n, w), s, t);
    }
  }

  /** `isoformat` leaves the microseconds out when they are zero. */
  function Fraction(micro: int): string
    requires 0 <= micro < 1_000_000
  {
    assert Pow10(6) == 1_000_000;
    (if micro == 0 then "" else "." + Pad(micro, 6)) + "+00:00"
  }

  function TimeText(c: Clock): string
    requires c.Valid()
  {
    assert Pow10(2) == 100;
    Pad(c.hour, 2) + (":" + (Pad(c.minute, 2) + (":" + (Pad(c.second, 2) + Fraction(c.micro)))))
  }

  function Iso(t: Instant): string {
    assert Pow10(4) == 10_000 && Pow10(2) == 100;
    var date, time := DateOf(t / MICROS_PER_DAY), TimeText(ClockOf(t % MICROS_PER_DAY));
    Pad(date.year, 4) + ("-" + (Pad(date.month, 2) + ("-" + (Pad(date.day, 2) + ("T" + time)))))
  }

  lemma FractionKeepsOrder(m: int, n: int)
    requires 0 <= m < n < 1_000_000
    ensures StrLt(Fraction(m), Fraction(n))
  {
    assert Pow10(6) == 1_000_000;
    if m == 0 {
      assert Fraction(m)[0] == '+' && Fraction(n)[0] == '.';
    } else {
      FieldDecides(m, n, 6, "+00:00", "+00:00");
      SamePrefix(".", Pad(m, 6) + "+00:00", Pad(n, 6) + "+00:00");
      assert Fraction(m) == "." + (Pad(m, 6) + "+00:00");
      assert Fraction(n) == "." + (Pad(n, 6) + "+00:00");
    }
  }

  lemma TimeTextKeepsOrder(c: Clock, d: Clock)
    requires c.Valid() && d.Valid() && c.Before(d)
    ensures StrLt(TimeText(c), TimeText(d))
  {
    assert Pow10(2) == 100;
    var sc, sd := Pad(c.second, 2) + Fraction(c.micro), Pad(d.second, 2) + Fraction(d.micro);
    var mc, md := Pad(c.minute, 2) + (":" + sc), Pad(d.minute, 2) + (":" + sd);
    FieldDecides(c.hour, d.hour, 2, ":" + mc, ":" + md);
    if c.hour == d.hour {
      SamePrefix(":", mc, md);
      FieldDecides(c.minute, d.minute, 2, ":" + sc, ":" + sd);
      if c.minute == d.minute {
        SamePrefix(":", sc, sd);
        FieldDecides(c.second, d.second, 2, Fraction(c.micro), Fraction(d.micro));
        if c.second == d.second { FractionKeepsOrder(c.micro, d.micro); }
      }
    }
  }

  lemma IsoKeepsOrder(a: Instant, b: Instant)
    requires a < b
    ensures StrLt(Iso(a), Iso(b))
  {
    assert Pow10(4) == 10_000 && Pow10(2) == 100;
    var d, e := DateOf(a / MICROS_PER_DAY), DateOf(b / MICROS_PER_DAY);
    var td, te := TimeText(ClockOf(a % MICROS_PER_DAY)), TimeText(ClockOf(b % MICROS_PER_DAY));
    if a / MICROS_PER_DAY == b / MICROS_PER_DAY {
      ClockKeepsOrder(a % MICROS_PER_DAY, b % MICROS_PER_DAY);
      TimeTextKeepsOrder(ClockOf(a % MICROS_PER_DAY), ClockOf(b % MICROS_PER_DAY));
    } else {
      DateKeepsOrder(a / MICROS_PER_DAY, b / MICROS_PER_DAY);
    }
    var dd, de := Pad(d.day, 2) + ("T" + td), Pad(e.day, 2) + ("T" + te);
    var md, me := Pad(d.month, 2) + ("-" + dd), Pad(e.month, 2) + ("-" + de);
    FieldDecides(d.year, e.year, 4, "-" + md, "-" + me);
    if d.year == e.year {
      SamePrefix("-", md, me);
      FieldDecides(d.month, e.month, 2, "-" + dd, "-" + de);
      if d.month == e.month {
        SamePrefix("-", dd, de);
        FieldDecides(d.day, e.day, 2, "T" + td, "T" + te);
        SamePrefix("T", td, te);
      }
    }
  }

  /** Comparing stored timestamps as text is comparing instants, microseconds left out or not. */
  lemma IsoOrder(a: Instant, b: Instant)
    ensures StrLt(Iso(a), Iso(b)) <==> a < b
    ensures StrLe(Iso(a), Iso(b)) <==> a <= b
    ensures Iso(a) == Iso(b) ==> a == b
  {
    StrLeTotal(Iso(a), Iso(b));
    if a < b {
      IsoKeepsOrder(a, b);
    } else if b < a {
      IsoKeepsOrder(b, a);
    }
  }
}
