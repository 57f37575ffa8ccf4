/** Keep-alive settings: reading them, writing them, and choosing one for a model. */
module KeepAlive {
  import opened Decimals
  import opened Jobs
  import opened Numbers
  import opened Text

  datatype Setting = Unset | Number(x: real) | Words(s: string)

  /** Python's `round` to an integer: ties go to the even neighbour. */
  function RoundHalfEven(x: real): int {
    var f := x.Floor;
    var d := x - f as real;
    if d < 0.5 || (d == 0.5 && f % 2 == 0) then f else f + 1
  }

  function FormatKeepAlive(seconds: real): Setting {
    var secs := RoundHalfEven(if seconds <= 0.0 then 1.0 else seconds);
    if secs % 3600 == 0 && secs >= 3600 then Words(Decimal(secs / 3600) + "h")
    else if secs % 60 == 0 && secs >= 60 then Words(Decimal(secs / 60) + "m")
    else Number(secs as real)
  }

  // Reading.

  function Unit(c: char): Option<real> {
    if c == 's' || c == 'S' then Some(1.0)
    else if c == 'm' || c == 'M' then Some(60.0)
    else if c == 'h' || c == 'H' then Some(3600.0)
    else if c == 'd' || c == 'D' then Some(86400.0)
    else None
  }

  /** The digits at the front as a fraction, and what follows them. */
  function ReadFraction(s: string): (real, string) {
    if s == "" || !IsDigit(s[0]) then (0.0, s)
    else
      var rest := ReadFraction(s[1..]);
      (((s[0] as int - '0' as int) as real + rest.0) / 10.0, rest.1)
  }

  /** An unsigned number: digits, and a point only if digits follow it. */
  function ReadNumber(s: string): Option<(real, string)> {
    if s == "" || !IsDigit(s[0]) then None
    else
      var whole := ReadNat(s, 0);
      if |whole.1| >= 2 && whole.1[0] == '.' && IsDigit(whole.1[1]) then
        var fraction := ReadFraction(whole.1[1..]);
        Some((whole.0 as real + fraction.0, fraction.1))
      else Some((whole.0 as real, whole.1))
  }

  /** What may follow the number: blanks, at most one unit, blanks. */
  function ReadUnit(s: string): Option<real> {
    var t := Lstrip(s);
    if t == "" then Some(1.0)
    else if Unit(t[0]).Some? && Lstrip(t[1..]) == "" then Unit(t[0])
    else None
  }

  function InSeconds(x: real, unit: real): real {
    x * unit
  }

  function ParseWords(s: string): Option<real> {
    var t := Lstrip(s);
    var negative := t != "" && t[0] == '-';
    var number := ReadNumber(if negative then t[1..] else t);
    if number.None? then None
    else
      var unit := ReadUnit(number.value.1);
      if unit.None? then None
      else if negative && number.value.0 > 0.0 then Some(-1.0)
      else Some(InSeconds(number.value.0, unit.value))
  }

  function ParseKeepAlive(value: Setting): Option<real> {
    match value
    case Unset => None
    case Number(x) => Some(x)
    case Words(s) => if s == "" then None else ParseWords(s)
  }

  lemma WholeHours(n: nat)
    ensures ParseWords(Decimal(n) + "h") == Some(n as real * 3600.0)
  {
    WholeNumber(n, 'h');
    OneUnit('h');
    Unsigned(Decimal(n) + "h", n as real, "h", 3600.0);
  }

  lemma WholeMinutes(n: nat)
    ensures ParseWords(Decimal(n) + "m") == Some(n as real * 60.0)
  {
    WholeNumber(n, 'm');
    OneUnit('m');
    Unsigned(Decimal(n) + "m", n as real, "m", 60.0);
  }

  lemma Unsigned(s: string, x: real, rest: string, unit: real)
    requires s != "" && IsDigit(s[0]) && ReadNumber(s) == Some((x, rest)) && ReadUnit(rest) == Some(unit)
    ensures ParseWords(s) == Some(InSeconds(x, unit))
  {
    StartsPlain(s);
  }

  lemma WholeNumber(n: nat, unit: char)
    requires !IsDigit(unit)
    ensures Decimal(n) + [unit] != "" && IsDigit((Decimal(n) + [unit])[0])
    ensures ReadNumber(Decimal(n) + [unit]) == Some((n as real, [unit]))
  {
    DecimalIsDigits(n);
    assert Decimal(n)[0] in Decimal(n);
    ReadDecimal(n, [unit]);
  }

  lemma StartsPlain(s: string)
    requires s != "" && IsDigit(s[0])
    ensures Lstrip(s) == s && s[0] != '-'
  {
  }

  lemma OneUnit(unit: char)
    requires Unit(unit).Some?
    ensures ReadUnit([unit]) == Unit(unit)
  {
    assert Lstrip([unit]) == [unit] && [unit][1..] == "";
  }

  /** Reading a formatted setting gives the number of seconds, rounded; nothing but the rounding is lost. */
  lemma FormatThenParse(seconds: real)
    ensures ParseKeepAlive(FormatKeepAlive(seconds)) ==
            Some(RoundHalfEven(if seconds <= 0.0 then 1.0 else seconds) as real)
  {
    var secs := RoundHalfEven(if seconds <= 0.0 then 1.0 else seconds);
    if secs % 3600 == 0 && secs >= 3600 {
      WholeHours(secs / 3600);
      Multiple(secs, 3600);
    } else if secs % 60 == 0 && secs >= 60 {
      WholeMinutes(secs / 60);
      Multiple(secs, 60);
    }
  }

  lemma Multiple(n: int, unit: int)
    requires unit in {60, 3600} && n % unit == 0
    ensures (n / unit) as real * unit as real == n as real
  {
    assert n == n / unit * unit;
  }

  /** The setting is 0, which unloads the model, exactly for positive values up to half a second; it is never negative. */
  lemma FormatZeroIff(seconds: real)
    ensures FormatKeepAlive(seconds) == Number(0.0) <==> 0.0 < seconds <= 0.5
    ensures ParseKeepAlive(FormatKeepAlive(seconds)).Some? && ParseKeepAlive(FormatKeepAlive(seconds)).value >= 0.0
  {
    FormatThenParse(seconds);
  }

  // Choosing.

  datatype JobView = JobView(model: string, kind: string, keepAlive: Setting, supportsPreload: bool)

  /** `x or default`: a missing or zero value gives way. */
  function Truthy(x: Option<real>, default: real): real {
    if x.None? || x.value == 0.0 then default else x.value
  }

  function Remaining(jobs: seq<JobView>, model: string): seq<JobView> {
    if jobs == [] then []
    else if jobs[0].model == model && jobs[0].supportsPreload then [jobs[0]] + Remaining(jobs[1..], model)
    else Remaining(jobs[1..], model)
  }

  /** The positive settings of the jobs. */
  function Finite(jobs: seq<JobView>): seq<real> {
    if jobs == [] then []
    else
      var v := ParseKeepAlive(jobs[0].keepAlive);
      if v.Some? && v.value > 0.0 then [v.value] + Finite(jobs[1..]) else Finite(jobs[1..])
  }

  function Largest(values: seq<real>): real
    requires values != []
  {
    if |values| == 1 then values[0] else Max(values[0], Largest(values[1..]))
  }

  /** `upcoming` are the jobs to run next and soon. */
  function KeepAliveFor(model: string, upcoming: seq<JobView>, policy: Setting, limit: Setting): Option<Setting> {
    var remain := Remaining(upcoming, model);
    if remain == [] then None
    else
      var policySeconds := Truthy(ParseKeepAlive(policy), 300.0);
      var given := Truthy(ParseKeepAlive(limit), 1800.0);
      var maxSeconds := if given < 0.0 then 1800.0 else given;
      var finite := Finite(remain);
      var wanted :=
        if finite == [] then policySeconds
        else if |remain| == 1 then Max(policySeconds, finite[0])
        else Max(policySeconds, Largest(finite));
      var chosen := Min(wanted, maxSeconds);
      Some(FormatKeepAlive(if chosen <= 0.0 then policySeconds else chosen))
  }

  /** Some remaining job, or else the policy, asks for `x` seconds. */
  ghost predicate Asked(model: string, upcoming: seq<JobView>, policy: Setting, x: real) {
    || x == Truthy(ParseKeepAlive(policy), 300.0)
    || exists j :: j in upcoming && j.model == model && j.supportsPreload && ParseKeepAlive(j.keepAlive) == Some(x) && x > 0.0
  }

  ghost predicate MostAsked(model: string, upcoming: seq<JobView>, policy: Setting, x: real) {
    Asked(model, upcoming, policy, x) && forall y | Asked(model, upcoming, policy, y) :: y <= x
  }

  lemma {:induction false} RemainingElements(jobs: seq<JobView>, model: string)
    ensures forall j :: j in Remaining(jobs, model) <==> j in jobs && j.model == model && j.supportsPreload
  {
    if jobs != [] { RemainingElements(jobs[1..], model); }
  }

  lemma {:induction false} FiniteElements(jobs: seq<JobView>)
    ensures forall x :: x in Finite(jobs) <==> exists j :: j in jobs && ParseKeepAlive(j.keepAlive) == Some(x) && x > 0.0
    ensures |Finite(jobs)| <= |jobs|
  {
    if jobs != [] {
      FiniteElements(jobs[1..]);
      forall x ensures x in Finite(jobs) <==> exists j :: j in jobs && ParseKeepAlive(j.keepAlive) == Some(x) && x > 0.0 {
        if ParseKeepAlive(jobs[0].keepAlive) == Some(x) && x > 0.0 { assert jobs[0] in jobs; }
        if x in Finite(jobs[1..]) {
          var j :| j in jobs[1..] && ParseKeepAlive(j.keepAlive) == Some(x) && x > 0.0;
          assert j in jobs;
        }
      }
    }
  }

  lemma {:induction false} LargestIsLargest(values: seq<real>)
    requires values != []
    ensures Largest(values) in values && forall x | x in values :: x <= Largest(values)
  {
    if |values| > 1 {
      LargestIsLargest(values[1..]);
      assert values == [values[0]] + values[1..];
    }
  }

  /** The longest request within the limit is granted, whatever the number of jobs; without a job there is no setting. */
  lemma KeepAliveMeaning(model: string, upcoming: seq<JobView>, policy: Setting, limit: Setting, wanted: real)
    requires MostAsked(model, upcoming, policy, wanted)
    ensures KeepAliveFor(model, upcoming, policy, limit).Some? <==>
            exists j :: j in upcoming && j.model == model && j.supportsPreload
    ensures KeepAliveFor(model, upcoming, policy, limit).Some? ==>
            var given := Truthy(ParseKeepAlive(limit), 1800.0);
            KeepAliveFor(model, upcoming, policy, limit).value ==
              FormatKeepAlive(Min(wanted, if given < 0.0 then 1800.0 else given))
  {
    var remain := Remaining(upcoming, model);
    RemainingElements(upcoming, model);
    if remain != [] {
      assert remain[0] in remain;
      FiniteElements(remain);
      var finite := Finite(remain);
      var p := Truthy(ParseKeepAlive(policy), 300.0);
      assert Asked(model, upcoming, policy, p);
      if finite != [] {
        LargestIsLargest(finite);
        LargestAsked(model, upcoming, policy, remain, wanted);
      }
    }
  }

  lemma LargestAsked(model: string, upcoming: seq<JobView>, policy: Setting, remain: seq<JobView>, wanted: real)
    requires MostAsked(model, upcoming, policy, wanted) && remain == Remaining(upcoming, model) && Finite(remain) != []
    ensures wanted == Max(Truthy(ParseKeepAlive(policy), 300.0), Largest(Finite(remain)))
  {
    var p, top := Truthy(ParseKeepAlive(policy), 300.0), Largest(Finite(remain));
    RemainingElements(upcoming, model);
    FiniteElements(remain);
    LargestIsLargest(Finite(remain));
    assert Asked(model, upcoming, policy, p);
    var j :| j in remain && ParseKeepAlive(j.keepAlive) == Some(top) && top > 0.0;
    assert Asked(model, upcoming, policy, top);
    if wanted != p {
      var k :| k in upcoming && k.model == model && k.supportsPreload && ParseKeepAlive(k.keepAlive) == Some(wanted) && wanted > 0.0;
      assert k in remain;
      assert wanted in Finite(remain);
    }
  }

  /** A setting meant to keep a model can come out as 0, which unloads it: exactly when the granted time is at most half a second. */
  lemma KeepAliveZeroIff(model: string, upcoming: seq<JobView>, policy: Setting, limit: Setting, wanted: real)
    requires MostAsked(model, upcoming, policy, wanted) && KeepAliveFor(model, upcoming, policy, limit).Some?
    ensures KeepAliveFor(model, upcoming, policy, limit) == Some(Number(0.0)) <==>
            var given := Truthy(ParseKeepAlive(limit), 1800.0);
            0.0 < Min(wanted, if given < 0.0 then 1800.0 else given) <= 0.5
  {
    KeepAliveMeaning(model, upcoming, policy, limit, wanted);
    var given := Truthy(ParseKeepAlive(limit), 1800.0);
    FormatZeroIff(Min(wanted, if given < 0.0 then 1800.0 else given));
  }
}
