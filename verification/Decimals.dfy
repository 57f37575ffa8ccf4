/** Natural numbers as decimal text. */
module Decimals {

  function Digit(d: nat): char
    requires d < 10
  {
    "0123456789"[d]
  }

  function Decimal(n: nat): string {
    if n < 10 then [Digit(n)] else Decimal(n / 10) + [Digit(n % 10)]
  }

  predicate IsDigit(c: char) {
    '0' <= c <= '9'
  }

  /** The digits at the front, read after `n`, and what follows them. */
  function ReadNat(s: string, n: nat): (nat, string)
    decreases |s|
  {
    if s == "" || !IsDigit(s[0]) then (n, s) else ReadNat(s[1..], 10 * n + (s[0] as int - '0' as int))
  }

  lemma {:induction false} ReadDecimal(n: nat, tail: string)
    requires tail == "" || !IsDigit(tail[0])
    ensures ReadNat(Decimal(n) + tail, 0) == (n, tail)
  {
    ReadDigits(n, tail);
    assert ReadNat(tail, n) == (n, tail);
  }

  lemma {:induction false} ReadDigits(n: nat, tail: string)
    ensures ReadNat(Decimal(n) + tail, 0) == ReadNat(tail, n)
  {
    if n < 10 {
      assert (Decimal(n) + tail)[1..] == tail;
    } else {
      var more := [Digit(n % 10)] + tail;
      assert Decimal(n) + tail == Decimal(n / 10) + more;
      ReadDigits(n / 10, more);
      assert more[1..] == tail;
    }
  }

  lemma {:induction false} DecimalIsDigits(n: nat)
    ensures Decimal(n) != "" && forall c | c in Decimal(n) :: IsDigit(c)
  {
    if n >= 10 { DecimalIsDigits(n / 10); }
  }
}
