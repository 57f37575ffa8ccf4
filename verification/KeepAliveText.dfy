/** Which texts are keep-alive settings, how many seconds they stand for, and what rounding does. */
module KeepAliveText {
  import opened Decimals
  import opened Jobs
  import opened KeepAlive
  import opened Text

  /** The nearest integer, the even one of two that are equally near. */
  lemma RoundIsNearest(x: real)
    ensures var r := RoundHalfEven(x) as real;
      r - 0.5 <= x <= r + 0.5 && (x == r - 0.5 || x == r + 0.5 ==> RoundHalfEven(x) % 2 == 0)
  {
  }

  /** Whole hours and whole minutes are written as such, anything else as a number of seconds. */
  lemma FormatUsesUnits(seconds: real)
    requires seconds > 0.0
    ensures var n := RoundHalfEven(seconds);
      && (n > 0 && n % 3600 == 0 ==> FormatKeepAlive(seconds) == Words(Decimal(n / 3600) + "h"))
      && (n > 0 && n % 3600 != 0 && n % 60 == 0 ==> FormatKeepAlive(seconds) == Words(Decimal(n / 60) + "m"))
      && (n == 0 || n % 60 != 0 ==> FormatKeepAlive(seconds) == Number(n as real))
  {
  }

  predicate Digits(s: string) {
    forall i | 0 <= i < |s| :: '0' <= s[i] <= '9'
  }

  predicate Blanks(s: string) {
    forall i | 0 <= i < |s| :: IsSpace(s[i])
  }

  predicate IsUnit(c: char) {
    c == 's' || c == 'S' || c == 'm' || c == 'M' || c == 'h' || c == 'H' || c == 'd' || c == 'D'
  }

  /** Blanks, a sign, digits, a fraction, blanks, one letter for the unit, and blanks. */
  datatype Parts = Parts(before: string, negative: bool, whole: string, fraction: string, between: string, unit: string, after: string) {
    predicate Valid() {
      && Blanks(before) && Blanks(between) && Blanks(after)
      && whole != "" && Digits(whole) && Digits(fraction)
      && (unit == "" || (|unit| == 1 && IsUnit(unit[0])))
    }

    function Tail(): string {
      between + (unit + after)
    }

    function Figures(): string {
      whole + ((if fraction == "" then "" else "." + fraction) + Tail())
    }

    function Spelled(): string {
      before + ((if negative then "-" else "") + Figures())
    }

    function Amount(): real {
      ReadNat(whole, 0).0 as real + ReadFraction(fraction).0
    }
  }

  function UnitSeconds(unit: string): real {
    if unit == "m" || unit == "M" then 60.0
    else if unit == "h" || unit == "H" then 3600.0
    else if unit == "d" || unit == "D" then 86400.0
    else 1.0
  }

  // From the parts to the number.

  lemma {:induction false} SkipBlanks(b: string, s: string)
    requires Blanks(b)
    ensures Lstrip(b + s) == Lstrip(s)
  {
    if b == "" {
      assert b + s == s;
    } else {
      assert (b + s)[1..] == b[1..] + s;
      SkipBlanks(b[1..], s);
    }
  }

  lemma {:induction false} DigitsThen(w: string, tail: string, n: nat)
    requires Digits(w) && (tail == "" || !IsDigit(tail[0]))
    ensures ReadNat(w + tail, n) == (ReadNat(w, n).0, tail)
  {
    if w == "" {
      assert w + tail == tail;
    } else {
      assert (w + tail)[1..] == w[1..] + tail;
      DigitsThen(w[1..], tail, 10 * n + (w[0] as int - '0' as int));
    }
  }

  lemma {:induction false} FractionThen(f: string, tail: string)
    requires Digits(f) && (tail == "" || !IsDigit(tail[0]))
    ensures ReadFraction(f + tail) == (ReadFraction(f).0, tail)
  {
    if f == "" {
      assert f + tail == tail;
    } else {
      assert (f + tail)[1..] == f[1..] + tail;
      FractionThen(f[1..], tail);
    }
  }

  lemma UnitReads(unit: string, after: string)
    requires Blanks(after) && (unit == "" || (|unit| == 1 && IsUnit(unit[0])))
    ensures ReadUnit(unit + after) == Some(UnitSeconds(unit))
  {
    SkipBlanks(after, "");
    assert after + "" == after;
    if unit == "" {
      assert unit + after == after;
    } else {
      assert (unit + after)[1..] == after && unit == [unit[0]];
    }
  }

  lemma TailReads(p: Parts)
    requires p.Valid()
    ensures ReadUnit(p.Tail()) == Some(UnitSeconds(p.unit))
  {
    SkipBlanks(p.between, p.unit + p.after);
    UnitReads(p.unit, p.after);
    StrippedOnce(p.unit + p.after);
  }

  lemma StrippedOnce(s: string)
    ensures ReadUnit(s) == ReadUnit(Lstrip(s))
  {
  }

  lemma TailStarts(p: Parts)
    requires p.Valid() && p.Tail() != ""
    ensures !IsDigit(p.Tail()[0]) && p.Tail()[0] != '.'
  {
    if p.between == "" {
      assert p.Tail() == p.unit + p.after;
      if p.unit == "" { assert p.Tail() == p.after; }
    }
  }

  lemma WholeReads(w: string, tail: string)
    requires w != "" && Digits(w) && (tail == "" || (!IsDigit(tail[0]) && tail[0] != '.'))
    ensures ReadNumber(w + tail) == Some((ReadNat(w, 0).0 as real, tail))
  {
    DigitsThen(w, tail, 0);
  }

  lemma PointThen(f: string, tail: string)
    requires f != "" && Digits(f)
    ensures var point := "." + f + tail;
            |point| >= 2 && point[0] == '.' && IsDigit(point[1]) && point[1..] == f + tail
  {
  }

  lemma FractionReads(w: string, f: string, tail: string, point: string)
    requires w != "" && Digits(w) && f != "" && Digits(f) && (tail == "" || !IsDigit(tail[0])) && point == "." + f + tail
    ensures ReadNumber(w + point) == Some((ReadNat(w, 0).0 as real + ReadFraction(f).0, tail))
  {
    PointThen(f, tail);
    DigitsThen(w, point, 0);
    FractionThen(f, tail);
    PointedNumber(w + point, ReadNat(w, 0).0, point);
  }

  lemma PointedNumber(s: string, n: nat, point: string)
    requires s != "" && IsDigit(s[0]) && ReadNat(s, 0) == (n, point)
    requires |point| >= 2 && point[0] == '.' && IsDigit(point[1])
    ensures ReadNumber(s) == Some((n as real + ReadFraction(point[1..]).0, ReadFraction(point[1..]).1))
  {
  }

  lemma FiguresRead(p: Parts)
    requires p.Valid()
    ensures ReadNumber(p.Figures()) == Some((p.Amount(), p.Tail()))
    ensures p.Figures() != "" && IsDigit(p.Figures()[0])
  {
    if p.Tail() != "" { TailStarts(p); }
    if p.fraction == "" {
      assert "" + p.Tail() == p.Tail();
      WholeReads(p.whole, p.Tail());
    } else {
      FractionReads(p.whole, p.fraction, p.Tail(), "." + p.fraction + p.Tail());
    }
  }

  /** Every such text is read, as the amount in seconds; a negative one, which means forever, as -1. */
  lemma SpelledIsRead(p: Parts)
    requires p.Valid()
    ensures ParseKeepAlive(Words(p.Spelled())) ==
            Some(if p.negative && p.Amount() > 0.0 then -1.0 else p.Amount() * UnitSeconds(p.unit))
  {
    var signed := (if p.negative then "-" else "") + p.Figures();
    FiguresRead(p);
    TailReads(p);
    SkipBlanks(p.before, signed);
    if p.negative {
      assert signed[1..] == p.Figures();
    } else {
      assert signed == p.Figures();
    }
  }

  // From the number to the parts.

  lemma {:induction false} Blanked(s: string) returns (b: string)
    ensures Blanks(b) && s == b + Lstrip(s)
  {
    if s != "" && IsSpace(s[0]) {
      var c := Blanked(s[1..]);
      b := [s[0]] + c;
      assert s == [s[0]] + s[1..];
    } else {
      b := "";
    }
  }

  lemma MoreDigits(s: string, v: string, rest: string)
    requires s != "" && IsDigit(s[0]) && Digits(v) && s[1..] == v + rest
    ensures Digits([s[0]] + v) && s == [s[0]] + v + rest
  {
    assert s == [s[0]] + s[1..];
  }

  lemma {:induction false} DigitsAtFront(s: string, n: nat) returns (w: string)
    ensures Digits(w) && s == w + ReadNat(s, n).1
    ensures ReadNat(s, n).1 == "" || !IsDigit(ReadNat(s, n).1[0])
    ensures s != "" && IsDigit(s[0]) ==> w != ""
  {
    if s == "" || !IsDigit(s[0]) {
      w := "";
    } else {
      var v := DigitsAtFront(s[1..], 10 * n + (s[0] as int - '0' as int));
      w := [s[0]] + v;
      MoreDigits(s, v, ReadNat(s, n).1);
    }
  }

  lemma {:induction false} FractionAtFront(s: string) returns (f: string)
    ensures Digits(f) && s == f + ReadFraction(s).1
    ensures s != "" && IsDigit(s[0]) ==> f != ""
  {
    if s == "" || !IsDigit(s[0]) {
      f := "";
    } else {
      var g := FractionAtFront(s[1..]);
      f := [s[0]] + g;
      MoreDigits(s, g, ReadFraction(s).1);
    }
  }

  lemma UnitAtEnd(s: string) returns (between: string, unit: string, after: string)
    requires ReadUnit(s).Some?
    ensures Blanks(between) && Blanks(after) && s == between + (unit + after)
    ensures unit == "" || (|unit| == 1 && IsUnit(unit[0]))
  {
    between := Blanked(s);
    var t := Lstrip(s);
    if t == "" {
      unit, after := "", "";
    } else {
      unit := [t[0]];
      after := Blanked(t[1..]);
      assert t == [t[0]] + t[1..];
    }
  }

  lemma NumberAtFront(s: string) returns (whole: string, fraction: string)
    requires ReadNumber(s).Some?
    ensures whole != "" && Digits(whole) && Digits(fraction)
    ensures s == whole + ((if fraction == "" then "" else "." + fraction) + ReadNumber(s).value.1)
  {
    whole := DigitsAtFront(s, 0);
    var rest := ReadNat(s, 0).1;
    if |rest| >= 2 && rest[0] == '.' && IsDigit(rest[1]) {
      fraction := FractionAtFront(rest[1..]);
      assert rest == ['.'] + rest[1..];
    } else {
      fraction := "";
    }
  }

  /** Nothing else is read: a text that stands for a number is spelled from such parts. */
  lemma ReadIsSpelled(s: string) returns (p: Parts)
    requires ParseKeepAlive(Words(s)).Some?
    ensures p.Valid() && p.Spelled() == s
  {
    var before := Blanked(s);
    var t := Lstrip(s);
    var negative := t != "" && t[0] == '-';
    var figures := if negative then t[1..] else t;
    var whole, fraction := NumberAtFront(figures);
    var between, unit, after := UnitAtEnd(ReadNumber(figures).value.1);
    p := Parts(before, negative, whole, fraction, between, unit, after);
    assert t == (if negative then "-" else "") + figures;
  }

  /** The digits after the point stand for less than one, and ten times that is the first digit and what the others stand for. */
  lemma {:induction false} FractionValue(f: string)
    requires Digits(f)
    ensures 0.0 <= ReadFraction(f).0 < 1.0
    ensures f == "" ==> ReadFraction(f).0 == 0.0
    ensures f != "" ==> 10.0 * ReadFraction(f).0 - ReadFraction(f[1..]).0 == (f[0] as int - '0' as int) as real
  {
    if f != "" { FractionValue(f[1..]); }
  }
}
