/** The token bucket behind the job-start rate limits. */
module TokenBuckets {
  import opened Numbers

  datatype Bucket = Bucket(rate: real, capacity: real, tokens: real, updated: real) {
    predicate Valid() {
      rate >= 0.0 && 0.0 <= tokens <= capacity && capacity >= 1.0
    }
  }

  function Full(perMinute: real, now: real): Bucket {
    var capacity := Max(1.0, perMinute / 6.0);
    Bucket(perMinute / 60.0, capacity, capacity, now)
  }

  function Refill(b: Bucket, now: real): Bucket {
    b.(updated := now, tokens := Min(b.capacity, b.tokens + Max(0.0, now - b.updated) * b.rate))
  }

  function Take(b: Bucket, now: real): Bucket {
    var r := Refill(b, now);
    if r.tokens >= 1.0 then r.(tokens := r.tokens - 1.0) else r
  }

  function Refund(b: Bucket, now: real, n: real): Bucket {
    var r := Refill(b, now);
    r.(tokens := Min(r.capacity, r.tokens + Max(0.0, n)))
  }

  class TokenBucket {
    var ratePerSec: real
    var capacity: real
    var tokens: real
    var updated: real

    function State(): Bucket
      reads this
    {
      Bucket(ratePerSec, capacity, tokens, updated)
    }

    constructor (perMinute: real, now: real)
      requires perMinute >= 0.0
      ensures State() == Full(perMinute, now) && State().Valid()
    {
      ratePerSec := perMinute / 60.0;
      capacity := if perMinute / 6.0 >= 1.0 then perMinute / 6.0 else 1.0;
      tokens := if perMinute / 6.0 >= 1.0 then perMinute / 6.0 else 1.0;
      updated := now;
    }

    method Replenish(now: real)
      modifies this`tokens, this`updated
      ensures State() == Refill(old(State()), now)
    {
      var elapsed := if now - updated > 0.0 then now - updated else 0.0;
      updated := now;
      tokens := tokens + elapsed * ratePerSec;
      if tokens > capacity {
        tokens := capacity;
      }
    }

    method WouldAllow(now: real) returns (ok: bool)
      modifies this`tokens, this`updated
      ensures State() == Refill(old(State()), now)
      ensures ok <==> State().tokens >= 1.0
    {
      Replenish(now);
      ok := tokens >= 1.0;
    }

    method TryTake(now: real) returns (ok: bool)
      modifies this`tokens, this`updated
      ensures ok <==> Refill(old(State()), now).tokens >= 1.0
      ensures State() == Take(old(State()), now)
      ensures Gain(old(State()), Grab(now)) == if ok then 1.0 else 0.0
    {
      Replenish(now);
      if tokens >= 1.0 {
        tokens := tokens - 1.0;
        return true;
      }
      return false;
    }

    method GiveBack(now: real, n: real)
      modifies this`tokens, this`updated
      ensures State() == Refund(old(State()), now, n)
      ensures Gain(old(State()), Return(now, n)) == if n > 0.0 then -n else 0.0
    {
      Replenish(now);
      tokens := tokens + if n > 0.0 then n else 0.0;
      if tokens > capacity {
        tokens := capacity;
      }
    }
  }

  datatype Op = Peek(now: real) | Grab(now: real) | Return(now: real, n: real)

  function Apply(b: Bucket, op: Op): Bucket {
    match op
    case Peek(now) => Refill(b, now)
    case Grab(now) => Take(b, now)
    case Return(now, n) => Refund(b, now, n)
  }

  /** Tokens that one operation hands out, less those it takes back. */
  function Gain(b: Bucket, op: Op): real {
    match op
    case Peek(_) => 0.0
    case Grab(now) => if Refill(b, now).tokens >= 1.0 then 1.0 else 0.0
    case Return(_, n) => -Max(0.0, n)
  }

  function ApplyAll(b: Bucket, ops: seq<Op>): Bucket
    decreases |ops|
  {
    if ops == [] then b else ApplyAll(Apply(b, ops[0]), ops[1..])
  }

  function Spent(b: Bucket, ops: seq<Op>): real
    decreases |ops|
  {
    if ops == [] then 0.0 else Gain(b, ops[0]) + Spent(Apply(b, ops[0]), ops[1..])
  }

  /** The clock does not run backwards, and the last operation is no later than `t`. */
  predicate Monotone(from: real, ops: seq<Op>, t: real)
    decreases |ops|
  {
    if ops == [] then from <= t else from <= ops[0].now && Monotone(ops[0].now, ops[1..], t)
  }

  /** What flows in between two clock readings. */
  function Inflow(rate: real, s: real, t: real): real {
    rate * (t - s)
  }

  lemma InflowIs(rate: real, s: real, t: real)
    ensures Inflow(rate, s, t) == rate * (t - s)
  {
  }

  lemma InflowAdds(rate: real, s: real, t: real, u: real)
    requires rate >= 0.0 && s <= t <= u
    ensures Inflow(rate, s, t) + Inflow(rate, t, u) == Inflow(rate, s, u)
    ensures Inflow(rate, s, t) >= 0.0
  {
    assert rate * (t - s) + rate * (u - t) == rate * (u - s);
  }

  lemma RefillGains(b: Bucket, now: real)
    requires b.Valid() && b.updated <= now
    ensures Refill(b, now).Valid()
    ensures b.tokens <= Refill(b, now).tokens <= b.tokens + Inflow(b.rate, b.updated, now)
  {
    assert b.rate * (now - b.updated) >= 0.0;
  }

  /** Exactly the elapsed time times the rate flows in, up to the capacity; a clock that runs backwards adds nothing. */
  lemma RefillExact(b: Bucket, now: real)
    requires b.Valid()
    ensures var r := Refill(b, now);
      && r.rate == b.rate && r.capacity == b.capacity && r.updated == now
      && (now <= b.updated ==> r.tokens == b.tokens)
      && (now > b.updated && b.tokens + b.rate * (now - b.updated) <= b.capacity ==> r.tokens == b.tokens + b.rate * (now - b.updated))
      && (now > b.updated && b.tokens + b.rate * (now - b.updated) >= b.capacity ==> r.tokens == b.capacity)
  {
    assert (now - b.updated) * b.rate == b.rate * (now - b.updated);
  }

  /** A new bucket holds ten seconds' worth of tokens, or one, and gains a sixtieth of the limit per minute each second. */
  lemma FullExact(perMinute: real, now: real)
    ensures var b := Full(perMinute, now);
      && 60.0 * b.rate == perMinute && b.tokens == b.capacity && b.updated == now
      && b.capacity >= 1.0 && b.capacity >= 10.0 * b.rate && (b.capacity == 1.0 || b.capacity == 10.0 * b.rate)
  {
  }

  lemma RefillTwice(b: Bucket, s: real, t: real)
    requires b.Valid() && b.updated <= s <= t
    ensures Refill(Refill(b, s), t) == Refill(b, t)
  {
    assert (s - b.updated) * b.rate + (t - s) * b.rate == (t - b.updated) * b.rate;
    assert (t - s) * b.rate >= 0.0;
  }

  lemma OneOp(b: Bucket, op: Op)
    requires b.Valid() && b.updated <= op.now
    ensures Apply(b, op).Valid() && Apply(b, op).updated == op.now
    ensures Apply(b, op).rate == b.rate && Apply(b, op).capacity == b.capacity
    ensures Apply(b, op).tokens + Gain(b, op) <= b.tokens + Inflow(b.rate, b.updated, op.now)
  {
    RefillGains(b, op.now);
  }

  /** What is left plus what was spent never exceeds what was there plus what flowed in. */
  lemma {:induction false} SpendingIsCovered(b: Bucket, ops: seq<Op>, t: real)
    requires b.Valid() && Monotone(b.updated, ops, t)
    ensures b.updated <= t && ApplyAll(b, ops).Valid() && ApplyAll(b, ops).updated <= t
    ensures ApplyAll(b, ops).tokens + Spent(b, ops) <= b.tokens + Inflow(b.rate, b.updated, t)
    decreases |ops|
  {
    if ops == [] {
      InflowAdds(b.rate, b.updated, t, t);
    } else {
      var op := ops[0];
      OneOp(b, op);
      SpendingIsCovered(Apply(b, op), ops[1..], t);
      InflowAdds(b.rate, b.updated, op.now, t);
    }
  }

  /** An earlier refill changes nothing for what comes later. */
  lemma RefillFirst(b: Bucket, s: real, ops: seq<Op>, t: real)
    requires b.Valid() && b.updated <= s && Monotone(s, ops, t)
    ensures Spent(Refill(b, s), ops) == Spent(b, ops)
  {
    if ops != [] { RefillTwice(b, s, ops[0].now); }
  }

  /**
   * The rate bound. After any history, successful takes less refunds in a window from `s` to `t` are at most
   * the capacity plus the rate times the length of the window.
   */
  lemma RateBound(b: Bucket, history: seq<Op>, window: seq<Op>, s: real, t: real)
    requires b.Valid() && Monotone(b.updated, history, s) && Monotone(s, window, t)
    ensures Spent(ApplyAll(b, history), window) <= b.capacity + Inflow(b.rate, s, t)
  {
    SpendingIsCovered(b, history, s);
    SameLimits(b, history);
    var now := ApplyAll(b, history);
    RefillGains(now, s);
    RefillFirst(now, s, window, t);
    SpendingIsCovered(Refill(now, s), window, t);
  }

  lemma {:induction false} SameLimits(b: Bucket, ops: seq<Op>)
    ensures ApplyAll(b, ops).rate == b.rate && ApplyAll(b, ops).capacity == b.capacity
    decreases |ops|
  {
    if ops != [] { SameLimits(Apply(b, ops[0]), ops[1..]); }
  }

  /**
   * `b` is the bucket `never` with `owed` tokens taken out, up to what the refill clamp has forgiven:
   * once the untouched bucket is full, the gap can only shrink.
   */
  predicate Owes(never: Bucket, b: Bucket, owed: nat) {
    && never.Valid() && b.Valid() && b == never.(tokens := b.tokens)
    && (b.tokens == never.tokens - owed as real
        || (never.tokens == never.capacity && b.tokens >= never.tokens - owed as real))
  }

  lemma OwesNothing(never: Bucket, b: Bucket)
    requires Owes(never, b, 0)
    ensures b == never
  {
  }

  lemma OwesAfterRefill(never: Bucket, b: Bucket, owed: nat, now: real)
    requires Owes(never, b, owed) && b.updated <= now
    ensures Owes(Refill(never, now), Refill(b, now), owed)
  {
    assert (now - b.updated) * b.rate >= 0.0;
  }

  lemma OwesAfterTake(never: Bucket, b: Bucket, owed: nat, now: real)
    requires Owes(never, b, owed) && b.updated <= now
    ensures Owes(Refill(never, now), Take(b, now), owed + if Refill(b, now).tokens >= 1.0 then 1 else 0)
  {
    OwesAfterRefill(never, b, owed, now);
  }

  lemma OwesAfterRefund(never: Bucket, b: Bucket, owed: nat, now: real)
    requires owed > 0 && Owes(never, b, owed) && b.updated <= now
    ensures Owes(Refill(never, now), Refund(b, now, 1.0), owed - 1)
  {
    OwesAfterRefill(never, b, owed, now);
  }

  /** A take that succeeded and is refunded later leaves the bucket as if it had only been refilled. */
  lemma TakeThenRefund(b: Bucket, s: real, t: real)
    requires b.Valid() && b.updated <= s <= t && Refill(b, s).tokens >= 1.0
    ensures Refund(Take(b, s), t, 1.0) == Refill(b, t)
  {
    OwesAfterTake(b, b, 0, s);
    RefillGains(b, s);
    OwesAfterRefund(Refill(b, s), Take(b, s), 1, t);
    RefillTwice(b, s, t);
    OwesNothing(Refill(b, t), Refund(Take(b, s), t, 1.0));
  }
}
