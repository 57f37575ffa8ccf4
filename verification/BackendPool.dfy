/** Spreading jobs over several backends: warm ones first, the least loaded of them, no recent failure. */
module BackendPool {
  import Graphs
  import opened Numbers

  // Recency.

  function Without(s: seq<string>, x: string): seq<string> {
    if s == [] then [] else if s[0] == x then Without(s[1..], x) else [s[0]] + Without(s[1..], x)
  }

  /** The distinct models of a history (oldest first), the most recently used one first. */
  function Mru(history: seq<string>): seq<string> {
    if history == [] then []
    else
      var last := history[|history| - 1];
      [last] + Without(Mru(history[..|history| - 1]), last)
  }

  function Take(s: seq<string>, n: nat): seq<string> {
    if |s| <= n then s else s[..n]
  }

  lemma {:induction false} WithoutElements(s: seq<string>, x: string)
    ensures forall y :: y in Without(s, x) <==> y in s && y != x
    ensures Graphs.Distinct(s) ==> Graphs.Distinct(Without(s, x))
    ensures |Without(s, x)| <= |s|
  {
    if s != [] {
      WithoutElements(s[1..], x);
      if Graphs.Distinct(s) {
        assert forall i, j | 0 <= i < j < |s[1..]| :: s[1..][i] == s[i + 1] && s[1..][j] == s[j + 1];
        assert forall i | 0 <= i < |s[1..]| :: s[1..][i] != s[0];
        if s[0] != x {
          var rest := Without(s[1..], x);
          forall i | 0 <= i < |rest| ensures rest[i] != s[0] { assert rest[i] in rest; }
        }
      }
    }
  }

  /** Where `x` was last used, or -1. */
  function LastUse(history: seq<string>, x: string): int {
    if history == [] then -1
    else if history[|history| - 1] == x then |history| - 1
    else LastUse(history[..|history| - 1], x)
  }

  lemma {:induction false} LastUseMeaning(history: seq<string>, x: string)
    ensures -1 <= LastUse(history, x) < |history|
    ensures LastUse(history, x) >= 0 ==> history[LastUse(history, x)] == x
    ensures forall i | LastUse(history, x) < i < |history| :: history[i] != x
  {
    if history != [] && history[|history| - 1] != x { LastUseMeaning(history[..|history| - 1], x); }
  }

  /** Listed in the order of their last uses, the latest first. */
  ghost predicate ByLastUse(history: seq<string>, s: seq<string>) {
    forall i, j | 0 <= i < j < |s| :: LastUse(history, s[i]) > LastUse(history, s[j])
  }

  /** `Mru` lists every model used once, and one before another exactly when its last use came later. */
  lemma {:induction false} MruMeaning(history: seq<string>)
    ensures Graphs.Distinct(Mru(history)) && ByLastUse(history, Mru(history))
    ensures forall x :: x in Mru(history) <==> x in history
  {
    if history != [] {
      var before, last := history[..|history| - 1], history[|history| - 1];
      assert history == before + [last];
      MruMeaning(before);
      WithoutElements(Mru(before), last);
      UseOneMore(before, last, Mru(before));
      var rest := Without(Mru(before), last);
      forall i | 0 <= i < |rest| ensures rest[i] != last { assert rest[i] in rest; }
    }
  }

  lemma UseOneMore(before: seq<string>, last: string, s: seq<string>)
    requires ByLastUse(before, s)
    ensures ByLastUse(before + [last], [last] + Without(s, last))
  {
    var history, rest := before + [last], Without(s, last);
    assert history[..|history| - 1] == before;
    WithoutElements(s, last);
    forall i, j | 0 <= i < j < |[last] + rest|
      ensures LastUse(history, ([last] + rest)[i]) > LastUse(history, ([last] + rest)[j])
    {
      assert rest[j - 1] in rest;
      LastUseMeaning(before, rest[j - 1]);
      if i > 0 {
        assert rest[i - 1] in rest;
        var a, b := WithoutOrder(s, last, i - 1, j - 1);
      }
    }
  }

  /** Dropping `x` keeps the order of the rest. */
  lemma {:induction false} WithoutOrder(s: seq<string>, x: string, i: nat, j: nat) returns (a: nat, b: nat)
    requires i < j < |Without(s, x)|
    ensures a < b < |s| && s[a] == Without(s, x)[i] && s[b] == Without(s, x)[j]
  {
    if s[0] == x {
      a, b := WithoutOrder(s[1..], x, i, j);
      a, b := a + 1, b + 1;
    } else if i > 0 {
      a, b := WithoutOrder(s[1..], x, i - 1, j - 1);
      a, b := a + 1, b + 1;
    } else {
      b := WithoutIndex(s[1..], x, j - 1);
      a, b := 0, b + 1;
    }
  }

  lemma {:induction false} WithoutIndex(s: seq<string>, x: string, i: nat) returns (a: nat)
    requires i < |Without(s, x)|
    ensures a < |s| && s[a] == Without(s, x)[i]
  {
    if s[0] != x && i == 0 {
      a := 0;
    } else {
      a := WithoutIndex(s[1..], x, if s[0] == x then i else i - 1);
      a := a + 1;
    }
  }

  /** Cutting and then dropping `x`, or dropping `x` and then cutting, agree on all but the last place. */
  lemma {:induction false} WithoutPrefix(s: seq<string>, x: string, n: nat)
    requires Graphs.Distinct(s) && 0 < n <= |s|
    ensures |Without(s[..n], x)| >= n - 1 && |Without(s, x)| >= n - 1
    ensures Without(s[..n], x)[..n - 1] == Without(s, x)[..n - 1]
  {
    var t := s[..n];
    assert t[1..] == s[1..][..n - 1];
    assert forall i, j | 0 <= i < j < |s[1..]| :: s[1..][i] == s[i + 1] && s[1..][j] == s[j + 1];
    if s[0] == x {
      assert forall i | 0 <= i < |s[1..]| :: s[1..][i] == s[i + 1];
      WithoutNothing(s[1..], x);
      assert forall i | 0 <= i < |t[1..]| :: t[1..][i] == s[i + 1];
      WithoutNothing(t[1..], x);
    } else if n > 1 {
      WithoutPrefix(s[1..], x, n - 1);
      var a, b := Without(t[1..], x), Without(s[1..], x);
      assert Without(t, x) == [s[0]] + a && Without(s, x) == [s[0]] + b;
      assert ([s[0]] + a)[..n - 1] == [s[0]] + a[..n - 2] && ([s[0]] + b)[..n - 1] == [s[0]] + b[..n - 2];
    }
  }

  lemma {:induction false} WithoutNothing(s: seq<string>, x: string)
    requires x !in s
    ensures Without(s, x) == s
  {
    if s != [] { WithoutNothing(s[1..], x); }
  }

  lemma FrontAgrees(x: string, a: seq<string>, b: seq<string>, n: nat)
    requires n >= 1 && |a| >= n - 1 && |b| >= n - 1 && a[..n - 1] == b[..n - 1]
    ensures Take([x] + a, n) == Take([x] + b, n)
  {
    assert ([x] + a)[..n] == [x] + a[..n - 1] && ([x] + b)[..n] == [x] + b[..n - 1];
  }

  /** The bounded deque of one backend stays the front of the unbounded recency order. */
  lemma NoteKeepsMru(history: seq<string>, model: string, capacity: nat)
    requires capacity >= 1
    ensures Take([model] + Without(Take(Mru(history), capacity), model), capacity) == Take(Mru(history + [model]), capacity)
  {
    MruMeaning(history);
    var s := Mru(history);
    assert (history + [model])[..|history|] == history;
    if |s| > capacity {
      WithoutPrefix(s, model, capacity);
      var a, b := Without(s[..capacity], model), Without(s, model);
      FrontAgrees(model, a, b, capacity);
    }
  }

  // Cooldowns, in the insertion order of the dictionary that holds them.

  datatype Cooldown = Cooldown(model: string, backend: nat, until: real)

  const FAILED_MAX: nat := 1024
  const COOLDOWN_SECONDS := 30.0

  predicate Same(c: Cooldown, model: string, backend: nat) {
    c.model == model && c.backend == backend
  }

  function Until(failed: seq<Cooldown>, model: string, backend: nat): real {
    if failed == [] then 0.0
    else if Same(failed[0], model, backend) then failed[0].until
    else Until(failed[1..], model, backend)
  }

  /** Assignment: an existing key keeps its place, a new one goes to the end. */
  function Put(failed: seq<Cooldown>, c: Cooldown): seq<Cooldown> {
    if failed == [] then [c]
    else if Same(failed[0], c.model, c.backend) then [c] + failed[1..]
    else [failed[0]] + Put(failed[1..], c)
  }

  function Pop(failed: seq<Cooldown>, model: string, backend: nat): seq<Cooldown> {
    if failed == [] then []
    else if Same(failed[0], model, backend) then failed[1..]
    else [failed[0]] + Pop(failed[1..], model, backend)
  }

  /** The entries that have not expired. */
  function Live(failed: seq<Cooldown>, now: real): seq<Cooldown> {
    if failed == [] then []
    else if failed[0].until > now then [failed[0]] + Live(failed[1..], now)
    else Live(failed[1..], now)
  }

  /** The first of the entries that expire soonest. */
  function Soonest(failed: seq<Cooldown>): (i: nat)
    requires failed != []
    ensures i < |failed|
  {
    if |failed| == 1 then 0
    else
      var i := 1 + Soonest(failed[1..]);
      if failed[0].until <= failed[i].until then 0 else i
  }

  lemma {:induction false} SoonestIsFirstLeast(failed: seq<Cooldown>)
    requires failed != []
    ensures forall j | 0 <= j < |failed| :: failed[Soonest(failed)].until <= failed[j].until
    ensures forall j | 0 <= j < Soonest(failed) :: failed[Soonest(failed)].until < failed[j].until
  {
    if |failed| > 1 {
      SoonestIsFirstLeast(failed[1..]);
      assert forall j | 0 < j < |failed| :: failed[j] == failed[1..][j - 1];
    }
  }

  function RemoveAt(failed: seq<Cooldown>, i: nat): (r: seq<Cooldown>)
    requires i < |failed|
    ensures |r| == |failed| - 1
  {
    failed[..i] + failed[i + 1..]
  }

  /** Without the `k` entries that expire soonest. */
  function Trim(failed: seq<Cooldown>, k: nat): (r: seq<Cooldown>)
    requires k <= |failed|
    ensures |r| == |failed| - k
    decreases k
  {
    if k == 0 then failed else Trim(RemoveAt(failed, Soonest(failed)), k - 1)
  }

  function Capped(live: seq<Cooldown>): (r: seq<Cooldown>)
    ensures |r| <= FAILED_MAX
  {
    if |live| > FAILED_MAX then Trim(live, |live| - FAILED_MAX) else live
  }

  function Pruned(failed: seq<Cooldown>, now: real): seq<Cooldown> {
    Capped(Live(failed, now))
  }

  ghost predicate Keyed(failed: seq<Cooldown>) {
    forall i, j | 0 <= i < j < |failed| :: !Same(failed[i], failed[j].model, failed[j].backend)
  }

  lemma {:induction false} LiveElements(failed: seq<Cooldown>, now: real)
    ensures forall c :: c in Live(failed, now) <==> c in failed && c.until > now
    ensures |Live(failed, now)| <= |failed|
    ensures Keyed(failed) ==> Keyed(Live(failed, now))
  {
    if failed != [] {
      LiveElements(failed[1..], now);
      var rest := Live(failed[1..], now);
      if Keyed(failed) {
        assert forall i | 0 <= i < |failed[1..]| :: failed[1..][i] == failed[i + 1];
        forall j | 0 <= j < |rest| ensures !Same(failed[0], rest[j].model, rest[j].backend) {
          assert rest[j] in rest;
          assert rest[j] in failed[1..];
        }
      }
    }
  }

  lemma RemoveElements(failed: seq<Cooldown>, i: nat)
    requires i < |failed|
    ensures forall c | c in RemoveAt(failed, i) :: c in failed
    ensures forall c | c in failed && c != failed[i] :: c in RemoveAt(failed, i)
    ensures Keyed(failed) ==> Keyed(RemoveAt(failed, i))
  {
    var rest := RemoveAt(failed, i);
    forall c | c in failed && c != failed[i] ensures c in rest {
      var j :| 0 <= j < |failed| && failed[j] == c;
      assert c == if j < i then rest[j] else rest[j - 1];
    }
  }

  lemma {:induction false} TrimElements(failed: seq<Cooldown>, k: nat)
    requires k <= |failed|
    ensures forall c | c in Trim(failed, k) :: c in failed
    ensures Keyed(failed) ==> Keyed(Trim(failed, k))
    decreases k
  {
    if k > 0 {
      RemoveElements(failed, Soonest(failed));
      TrimElements(RemoveAt(failed, Soonest(failed)), k - 1);
    }
  }

  lemma {:induction false} TrimDropsSoonest(failed: seq<Cooldown>, k: nat, c: Cooldown, kept: Cooldown)
    requires k <= |failed| && c in failed && c !in Trim(failed, k) && kept in Trim(failed, k)
    ensures c.until <= kept.until
    decreases k
  {
    if k > 0 {
      var i := Soonest(failed);
      var rest := RemoveAt(failed, i);
      RemoveElements(failed, i);
      SoonestIsFirstLeast(failed);
      TrimElements(rest, k - 1);
      if c != failed[i] { TrimDropsSoonest(rest, k - 1, c, kept); }
    }
  }

  lemma CappedElements(live: seq<Cooldown>)
    ensures forall c | c in Capped(live) :: c in live
    ensures Keyed(live) ==> Keyed(Capped(live))
  {
    if |live| > FAILED_MAX { TrimElements(live, |live| - FAILED_MAX); }
  }

  lemma CapDropsSoonest(live: seq<Cooldown>, c: Cooldown, kept: Cooldown)
    requires c in live && c !in Capped(live) && kept in Capped(live)
    ensures c.until <= kept.until && |Capped(live)| == FAILED_MAX
  {
    if |live| > FAILED_MAX { TrimDropsSoonest(live, |live| - FAILED_MAX, c, kept); }
  }

  /** A pruned table holds at most 1024 entries, none of them expired, and below that size all of those. */
  lemma PruneMeaning(failed: seq<Cooldown>, now: real)
    ensures |Pruned(failed, now)| <= FAILED_MAX
    ensures forall c | c in Pruned(failed, now) :: c in failed && c.until > now
    ensures Keyed(failed) ==> Keyed(Pruned(failed, now))
    ensures |failed| <= FAILED_MAX ==> forall c | c in failed && c.until > now :: c in Pruned(failed, now)
  {
    LiveElements(failed, now);
    CappedElements(Live(failed, now));
  }

  /** Of the entries that have not expired, those that a prune drops expire no later than those it keeps. */
  lemma PruneDropsSoonest(failed: seq<Cooldown>, now: real, c: Cooldown, kept: Cooldown)
    requires c in failed && c.until > now && c !in Pruned(failed, now) && kept in Pruned(failed, now)
    ensures c.until <= kept.until && |Pruned(failed, now)| == FAILED_MAX
  {
    LiveElements(failed, now);
    CapDropsSoonest(Live(failed, now), c, kept);
  }

  lemma {:induction false} UntilOf(failed: seq<Cooldown>, c: Cooldown)
    requires Keyed(failed) && c in failed
    ensures Until(failed, c.model, c.backend) == c.until
  {
    assert forall i | 0 <= i < |failed[1..]| :: failed[1..][i] == failed[i + 1];
    if failed[0] != c { UntilOf(failed[1..], c); }
  }

  lemma {:induction false} UntilAbsent(failed: seq<Cooldown>, model: string, backend: nat)
    requires forall c | c in failed :: !Same(c, model, backend)
    ensures Until(failed, model, backend) == 0.0
  {
    if failed != [] {
      assert failed[0] in failed;
      UntilAbsent(failed[1..], model, backend);
    }
  }

  lemma {:induction false} UntilWhere(failed: seq<Cooldown>, model: string, backend: nat)
    ensures Until(failed, model, backend) == 0.0 || exists c :: c in failed && Same(c, model, backend) && c.until == Until(failed, model, backend)
  {
    if failed != [] && !Same(failed[0], model, backend) {
      UntilWhere(failed[1..], model, backend);
    } else if failed != [] {
      assert failed[0] in failed;
    }
  }

  /** Pruning a table within the size bound never makes a backend available, or unavailable, for a model. */
  lemma PruneKeepsCooling(failed: seq<Cooldown>, now: real, model: string, backend: nat)
    requires Keyed(failed) && |failed| <= FAILED_MAX && now >= 0.0
    ensures (Until(Pruned(failed, now), model, backend) <= now) == (Until(failed, model, backend) <= now)
  {
    PruneMeaning(failed, now);
    var after := Pruned(failed, now);
    UntilWhere(failed, model, backend);
    UntilWhere(after, model, backend);
    if Until(failed, model, backend) > now {
      var c :| c in failed && Same(c, model, backend) && c.until == Until(failed, model, backend);
      UntilOf(after, c);
    } else if Until(after, model, backend) > now {
      var c :| c in after && Same(c, model, backend) && c.until == Until(after, model, backend);
      UntilOf(failed, c);
    }
  }

  lemma {:induction false} PutSize(failed: seq<Cooldown>, c: Cooldown)
    ensures |Put(failed, c)| == |failed| || (|Put(failed, c)| == |failed| + 1 && Put(failed, c) == failed + [c])
  {
    if failed != [] && !Same(failed[0], c.model, c.backend) {
      PutSize(failed[1..], c);
      assert failed == [failed[0]] + failed[1..];
    }
  }

  lemma {:induction false} PutElements(failed: seq<Cooldown>, c: Cooldown)
    requires Keyed(failed)
    ensures Keyed(Put(failed, c))
    ensures forall d :: d in Put(failed, c) <==> d == c || (d in failed && !Same(d, c.model, c.backend))
    ensures |Put(failed, c)| == |failed| || (|Put(failed, c)| == |failed| + 1 && Put(failed, c) == failed + [c])
  {
    PutSize(failed, c);
    if failed != [] {
      assert forall i | 0 <= i < |failed[1..]| :: failed[1..][i] == failed[i + 1];
      var rest := Put(failed[1..], c);
      if !Same(failed[0], c.model, c.backend) {
        PutElements(failed[1..], c);
        forall j | 0 <= j < |rest| ensures !Same(failed[0], rest[j].model, rest[j].backend) {
          assert rest[j] in rest;
        }
      } else {
        forall d | d in failed[1..] ensures !Same(d, c.model, c.backend) {
          var i :| 0 <= i < |failed[1..]| && failed[1..][i] == d;
        }
      }
    }
  }

  lemma {:induction false} LiveSnoc(failed: seq<Cooldown>, c: Cooldown, now: real)
    requires c.until > now
    ensures Live(failed + [c], now) == Live(failed, now) + [c]
  {
    if failed != [] {
      assert (failed + [c])[1..] == failed[1..] + [c];
      LiveSnoc(failed[1..], c, now);
    }
  }

  lemma SoonestIsNotLast(live: seq<Cooldown>)
    requires |live| > 1 && live[0].until <= live[|live| - 1].until
    ensures Soonest(live) < |live| - 1
  {
    SoonestIsFirstLeast(live);
  }

  lemma RemoveKeepsLast(live: seq<Cooldown>, i: nat)
    requires i < |live| - 1
    ensures live[|live| - 1] in RemoveAt(live, i)
  {
    assert RemoveAt(live, i)[|live| - 2] == live[|live| - 1];
  }

  lemma LastSurvives(live: seq<Cooldown>)
    requires |live| > 1 && live[0].until <= live[|live| - 1].until
    ensures live[|live| - 1] in Trim(live, 1)
  {
    SoonestIsNotLast(live);
    RemoveKeepsLast(live, Soonest(live));
  }

  lemma CapKeepsLast(live: seq<Cooldown>, c: Cooldown)
    requires |live| <= FAILED_MAX && forall j | 0 <= j < |live| :: live[j].until <= c.until
    ensures c in Capped(live + [c])
  {
    assert (live + [c])[|live|] == c;
    if |live| == FAILED_MAX { LastSurvives(live + [c]); }
  }

  lemma JustFailedIsListed(failed: seq<Cooldown>, c: Cooldown, now: real)
    requires Keyed(failed) && |failed| <= FAILED_MAX && now < c.until
    requires forall d | d in failed :: d.until <= c.until
    ensures c in Pruned(Put(failed, c), now)
  {
    PutElements(failed, c);
    if |Put(failed, c)| == |failed| {
      PruneMeaning(Put(failed, c), now);
    } else {
      LiveSnoc(failed, c, now);
      LiveElements(failed, now);
      var live := Live(failed, now);
      forall j | 0 <= j < |live| ensures live[j].until <= c.until { assert live[j] in live; }
      CapKeepsLast(live, c);
    }
  }

  /** A failure recorded now, with every older one expiring no later, is still on record after the prune. */
  lemma JustFailedIsKept(failed: seq<Cooldown>, c: Cooldown, now: real)
    requires Keyed(failed) && |failed| <= FAILED_MAX && now < c.until
    requires forall d | d in failed :: d.until <= c.until
    ensures Until(Pruned(Put(failed, c), now), c.model, c.backend) == c.until
  {
    PutElements(failed, c);
    JustFailedIsListed(failed, c, now);
    PruneMeaning(Put(failed, c), now);
    UntilOf(Pruned(Put(failed, c), now), c);
  }

  lemma {:induction false} PopElements(failed: seq<Cooldown>, model: string, backend: nat)
    requires Keyed(failed)
    ensures Keyed(Pop(failed, model, backend)) && |Pop(failed, model, backend)| <= |failed|
    ensures forall d :: d in Pop(failed, model, backend) <==> d in failed && !Same(d, model, backend)
  {
    if failed != [] {
      assert forall i | 0 <= i < |failed[1..]| :: failed[1..][i] == failed[i + 1];
      if !Same(failed[0], model, backend) {
        PopElements(failed[1..], model, backend);
        var rest := Pop(failed[1..], model, backend);
        forall j | 0 <= j < |rest| ensures !Same(failed[0], rest[j].model, rest[j].backend) {
          assert rest[j] in rest;
        }
      } else {
        forall d | d in failed[1..] ensures !Same(d, model, backend) {
          var i :| 0 <= i < |failed[1..]| && failed[1..][i] == d;
        }
      }
    }
  }

  // The pool.

  /** Least (jobs in flight, position). */
  predicate Before(inflight: seq<nat>, i: nat, j: nat)
    requires i < |inflight| && j < |inflight|
  {
    inflight[i] < inflight[j] || (inflight[i] == inflight[j] && i <= j)
  }

  /** Not cooling down for this model; every backend, when the job names no model or all of them are. */
  ghost predicate Candidate(failed: seq<Cooldown>, n: nat, model: string, now: real, i: nat) {
    && i < n
    && (model != "" ==> Until(failed, model, i) <= now || forall j | 0 <= j < n :: Until(failed, model, j) > now)
  }

  /**
   * What a pick promises, for a backend counted as warm if it ran the job's model lately: the least loaded warm
   * candidate, unless it is busy and a cold one is freer; the lower position where loads are equal.
   */
  ghost predicate Picked(
      inflight: seq<nat>, recent: seq<seq<string>>, failed: seq<Cooldown>, spillover: nat, model: string, now: real, idx: nat)
    requires |recent| == |inflight|
  {
    var n := |inflight|;
    && Candidate(failed, n, model, now, idx)
    && if model != "" && model in recent[idx] then
         && (forall w: nat | Candidate(failed, n, model, now, w) && model in recent[w] ::
               inflight[idx] < inflight[w] || (inflight[idx] == inflight[w] && idx <= w))
         && (inflight[idx] < spillover || forall c: nat | Candidate(failed, n, model, now, c) :: inflight[idx] <= inflight[c])
       else
         && (forall c: nat | Candidate(failed, n, model, now, c) && (model == "" || model !in recent[c]) ::
               inflight[idx] < inflight[c] || (inflight[idx] == inflight[c] && idx <= c))
         && forall w: nat | Candidate(failed, n, model, now, w) && model != "" && model in recent[w] ::
              inflight[w] >= spillover && inflight[idx] < inflight[w]
  }

  predicate Warm(recent: seq<seq<string>>, model: string, i: nat) {
    i < |recent| && model != "" && model in recent[i]
  }

  /** How far a pick may be from the least loaded candidate. */
  lemma PickBound(
      inflight: seq<nat>, recent: seq<seq<string>>, failed: seq<Cooldown>, spillover: nat, model: string, now: real,
      idx: nat, least: nat)
    requires |recent| == |inflight| && Picked(inflight, recent, failed, spillover, model, now, idx)
    requires Candidate(failed, |inflight|, model, now, least)
    ensures inflight[idx] <= Larger(spillover - 1, inflight[least])
  {
    if !Warm(recent, model, idx) && !Warm(recent, model, least) { assert Before(inflight, idx, least); }
  }

  /** The promise leaves no choice. */
  lemma PickIsDetermined(
      inflight: seq<nat>, recent: seq<seq<string>>, failed: seq<Cooldown>, spillover: nat, model: string, now: real,
      a: nat, b: nat)
    requires |recent| == |inflight|
    requires Picked(inflight, recent, failed, spillover, model, now, a)
    requires Picked(inflight, recent, failed, spillover, model, now, b)
    ensures a == b
  {
    if Warm(recent, model, a) == Warm(recent, model, b) {
      assert Before(inflight, a, b) && Before(inflight, b, a);
    }
  }

  lemma InRange(candidates: seq<nat>, failed: seq<Cooldown>, n: nat, model: string, now: real)
    requires forall i | i in candidates :: Candidate(failed, n, model, now, i)
    ensures forall k | 0 <= k < |candidates| :: candidates[k] < n
  {
    forall k | 0 <= k < |candidates| ensures candidates[k] < n {
      assert candidates[k] in candidates;
    }
  }

  datatype Outcome = Success | Failure | Cancelled

  class BackendPool {
    var inflight: seq<nat>
    var recent: seq<seq<string>>
    var failedUntil: seq<Cooldown>
    const capacity: nat
    const spillover: nat

    /** The leases that have not been given back, by backend. */
    ghost var open: multiset<nat>
    /** Every model each backend was noted for, the oldest first. */
    ghost var history: seq<seq<string>>
    /** The latest time seen. */
    ghost var clock: real

    ghost predicate Valid()
      reads this
    {
      && capacity >= 1 && spillover >= 1
      && |inflight| == |recent| == |history| >= 1
      && (forall i: nat | i < |inflight| :: inflight[i] == open[i])
      && (forall i | i in open :: i < |inflight|)
      && (forall i | 0 <= i < |recent| :: recent[i] == Take(Mru(history[i]), capacity))
      && Keyed(failedUntil) && |failedUntil| <= FAILED_MAX
      && forall c | c in failedUntil :: c.until <= clock + COOLDOWN_SECONDS
    }

    constructor (n: nat, warmCapacity: int, warmSpillover: int)
      requires n >= 1
      ensures Valid() && |inflight| == n && open == multiset{} && failedUntil == []
      ensures capacity == Larger(1, warmCapacity) && spillover == Larger(1, warmSpillover)
      ensures forall i | 0 <= i < n :: history[i] == []
    {
      inflight := seq(n, _ => 0);
      recent := seq(n, _ => []);
      failedUntil := [];
      capacity := Larger(1, warmCapacity);
      spillover := Larger(1, warmSpillover);
      open, history, clock := multiset{}, seq(n, _ => []), 0.0;
    }

    method Note(i: nat, model: string)
      requires Valid() && i < |inflight|
      modifies this`recent, this`history
      ensures Valid() && history == old(history)[i := old(history)[i] + [model]]
    {
      var deque := recent[i];
      if model in deque {
        deque := Without(deque, model);
      } else {
        WithoutNothing(deque, model);
      }
      NoteKeepsMru(history[i], model, capacity);
      assert Take([model] + deque, capacity) == Take(Mru(history[i] + [model]), capacity);
      recent := recent[i := Take([model] + deque, capacity)];
      history := history[i := history[i] + [model]];
    }

    /** A preload that worked; out of range or without a model it is ignored. */
    method NoteWarm(i: int, model: string)
      requires Valid()
      modifies this`recent, this`history
      ensures Valid()
      ensures history == if 0 <= i < |inflight| && model != "" then old(history)[i := old(history)[i] + [model]] else old(history)
    {
      if 0 <= i < |inflight| && model != "" {
        Note(i, model);
      }
    }

    method DropExpired(now: real)
      modifies this`failedUntil
      ensures failedUntil == Live(old(failedUntil), now)
    {
      ghost var all := failedUntil;
      var kept: seq<Cooldown> := [];
      var i := 0;
      assert failedUntil[0..] == failedUntil;
      while i < |failedUntil|
        invariant 0 <= i <= |failedUntil| && failedUntil == all
        invariant Live(all, now) == kept + Live(failedUntil[i..], now)
      {
        assert failedUntil[i..][0] == failedUntil[i] && failedUntil[i..][1..] == failedUntil[i + 1..];
        if failedUntil[i].until > now {
          kept := kept + [failedUntil[i]];
        }
        i := i + 1;
      }
      failedUntil := kept;
    }

    method PruneFailedUntil(now: real)
      modifies this`failedUntil
      ensures failedUntil == Pruned(old(failedUntil), now)
    {
      DropExpired(now);
      ghost var live := failedUntil;
      while |failedUntil| > FAILED_MAX
        invariant Capped(failedUntil) == Capped(live)
        decreases |failedUntil|
      {
        failedUntil := RemoveAt(failedUntil, Soonest(failedUntil));
      }
    }

    method LeastLoaded(among: seq<nat>) returns (best: nat)
      requires among != [] && forall k | 0 <= k < |among| :: among[k] < |inflight|
      ensures best in among && best < |inflight| && forall k | 0 <= k < |among| :: Before(inflight, best, among[k])
    {
      best := among[0];
      var k := 1;
      while k < |among|
        invariant 1 <= k <= |among| && best in among && best < |inflight|
        invariant forall j | 0 <= j < k :: Before(inflight, best, among[j])
      {
        if !Before(inflight, best, among[k]) {
          best := among[k];
        }
        k := k + 1;
      }
    }

    /** The backends that are not cooling down for the model, or all of them when each one is. */
    method Candidates(model: string, now: real) returns (candidates: seq<nat>)
      requires Valid()
      ensures candidates != []
      ensures forall i :: i in candidates <==> Candidate(failedUntil, |inflight|, model, now, i)
    {
      var available: seq<nat> := seq(|inflight|, (i: nat) => i);
      candidates := [];
      var i := 0;
      while i < |inflight|
        invariant 0 <= i <= |inflight|
        invariant forall j: nat :: j in candidates <==> j < i && (model != "" ==> Until(failedUntil, model, j) <= now)
      {
        if model == "" || Until(failedUntil, model, i) <= now {
          candidates := candidates + [i];
        }
        i := i + 1;
      }
      if candidates == [] {
        forall j: nat | j < |inflight| ensures Until(failedUntil, model, j) > now && model != "" {
          assert j !in candidates;
        }
        candidates := available;
        forall j: nat ensures j in available <==> j < |inflight| {
          if j < |inflight| { assert available[j] == j; }
        }
      } else {
        assert candidates[0] in candidates;
        forall i: nat ensures i in candidates <==> Candidate(failedUntil, |inflight|, model, now, i) {
          assert candidates[0] < |inflight| && (model != "" ==> Until(failedUntil, model, candidates[0]) <= now);
        }
      }
    }

    /** The candidates that are warm for the model, or those that are not. */
    method Having(candidates: seq<nat>, model: string, warm: bool) returns (r: seq<nat>)
      ensures forall i :: i in r <==> i in candidates && Warm(recent, model, i) == warm
    {
      r := [];
      var k := 0;
      while k < |candidates|
        invariant 0 <= k <= |candidates|
        invariant forall i :: i in r <==> i in candidates[..k] && Warm(recent, model, i) == warm
      {
        if Warm(recent, model, candidates[k]) == warm {
          r := r + [candidates[k]];
        }
        k := k + 1;
      }
      assert candidates[..k] == candidates;
    }

    method PickFrom(candidates: seq<nat>, model: string, now: real) returns (idx: nat)
      requires Valid() && candidates != []
      requires forall i :: i in candidates <==> Candidate(failedUntil, |inflight|, model, now, i)
      ensures Picked(inflight, recent, failedUntil, spillover, model, now, idx)
    {
      var warm := Having(candidates, model, true);
      InRange(candidates, failedUntil, |inflight|, model, now);
      if warm == [] {
        idx := LeastLoaded(candidates);
        return;
      }
      assert forall k | 0 <= k < |warm| :: warm[k] in warm;
      var bestWarm := LeastLoaded(warm);
      var cold := Having(candidates, model, false);
      assert forall k | 0 <= k < |cold| :: cold[k] in cold;
      idx := bestWarm;
      if cold != [] && inflight[bestWarm] >= spillover {
        var bestCold := LeastLoaded(cold);
        if inflight[bestCold] < inflight[bestWarm] {
          idx := bestCold;
        }
      }
    }

    method Pick(model: string, now: real) returns (idx: nat)
      requires Valid() && now >= clock
      modifies this`failedUntil, this`clock
      ensures Valid() && clock == now
      ensures failedUntil == if model != "" then Pruned(old(failedUntil), now) else old(failedUntil)
      ensures Picked(inflight, recent, failedUntil, spillover, model, now, idx)
    {
      clock := now;
      if model != "" {
        PruneMeaning(failedUntil, now);
        PruneFailedUntil(now);
      }
      var candidates := Candidates(model, now);
      idx := PickFrom(candidates, model, now);
    }

    /** The entry of a lease. */
    method Acquire(model: string, now: real) returns (idx: nat)
      requires Valid() && now >= clock
      modifies this
      ensures Valid() && clock == now && history == old(history)
      ensures Picked(old(inflight), recent, failedUntil, spillover, model, now, idx)
      ensures failedUntil == if model != "" then Pruned(old(failedUntil), now) else old(failedUntil)
      ensures open == old(open) + multiset{idx}
    {
      idx := Pick(model, now);
      inflight := inflight[idx := inflight[idx] + 1];
      open := open + multiset{idx};
    }

    method NoteFailure(idx: nat, model: string, failedAt: real, now: real)
      requires Valid() && clock <= failedAt <= now
      modifies this`failedUntil, this`clock
      ensures Valid() && clock == now
      ensures failedUntil == Pruned(Put(old(failedUntil), Cooldown(model, idx, failedAt + COOLDOWN_SECONDS)), now)
    {
      var c := Cooldown(model, idx, failedAt + COOLDOWN_SECONDS);
      PutElements(failedUntil, c);
      PruneMeaning(Put(failedUntil, c), now);
      failedUntil := Put(failedUntil, c);
      clock := now;
      PruneFailedUntil(now);
    }

    method NoteSuccess(idx: nat, model: string)
      requires Valid() && idx < |inflight|
      modifies this`failedUntil, this`recent, this`history
      ensures Valid() && history == old(history)[idx := old(history)[idx] + [model]]
      ensures failedUntil == Pop(old(failedUntil), model, idx)
    {
      PopElements(failedUntil, model, idx);
      failedUntil := Pop(failedUntil, model, idx);
      Note(idx, model);
    }

    /** The exit of a lease: the body returned, raised an exception, or was cancelled. */
    method Release(idx: nat, model: string, outcome: Outcome, failedAt: real, now: real)
      requires Valid() && idx in open && clock <= failedAt <= now
      modifies this
      ensures Valid() && open == old(open) - multiset{idx}
      ensures history == if outcome.Success? && model != "" then old(history)[idx := old(history)[idx] + [model]] else old(history)
      ensures failedUntil ==
              if model == "" || outcome.Cancelled? then old(failedUntil)
              else if outcome.Success? then Pop(old(failedUntil), model, idx)
              else Pruned(Put(old(failedUntil), Cooldown(model, idx, failedAt + COOLDOWN_SECONDS)), now)
    {
      if model != "" {
        match outcome
        case Failure => NoteFailure(idx, model, failedAt, now);
        case Success => NoteSuccess(idx, model);
        case Cancelled =>
      }
      inflight := inflight[idx := inflight[idx] - 1];
      open := open - multiset{idx};
    }
  }

  /** A retry within the cooldown avoids the backend that just failed whenever some other one was available. */
  lemma RetryAvoidsFailure(
      failed: seq<Cooldown>, c: Cooldown, noted: real, retried: real,
      inflight: seq<nat>, recent: seq<seq<string>>, spillover: nat, idx: nat, other: nat)
    requires Keyed(failed) && |failed| <= FAILED_MAX && forall d | d in failed :: d.until <= c.until
    requires c.model != "" && 0.0 <= noted <= retried < c.until
    requires other < |inflight| && other != c.backend && Until(failed, c.model, other) <= noted
    requires |recent| == |inflight|
    requires Picked(inflight, recent, Pruned(Pruned(Put(failed, c), noted), retried), spillover, c.model, retried, idx)
    ensures idx != c.backend
  {
    var put := Put(failed, c);
    var first := Pruned(put, noted);
    var second := Pruned(first, retried);
    PutElements(failed, c);
    JustFailedIsKept(failed, c, noted);
    PruneMeaning(put, noted);
    PruneKeepsCooling(first, retried, c.model, c.backend);
    PruneMeaning(first, retried);
    UntilWhere(second, c.model, other);
    if Until(second, c.model, other) > retried {
      var d :| d in second && Same(d, c.model, other) && d.until == Until(second, c.model, other);
      UntilOf(failed, d);
      assert false;
    }
  }

  // A retry with other things noted in between.

  /** What the pool notes of a lease: a failure at some time, or a success, which forgets the failure of its key. */
  datatype Noted = Failed(c: Cooldown, at: real) | Succeeded(model: string, backend: nat)

  function AfterNotes(failed: seq<Cooldown>, notes: seq<Noted>): seq<Cooldown>
    decreases |notes|
  {
    if notes == [] then failed
    else
      AfterNotes(match notes[0]
                 case Failed(c, at) => Pruned(Put(failed, c), at)
                 case Succeeded(model, backend) => Pop(failed, model, backend),
                 notes[1..])
  }

  function Failures(notes: seq<Noted>): nat {
    if notes == [] then 0 else Failures(notes[1..]) + (if notes[0].Failed? then 1 else 0)
  }

  /** The entries that expire at `until` or later. */
  ghost function Rivals(failed: seq<Cooldown>, until: real): set<Cooldown> {
    set d | d in failed && d.until >= until
  }

  ghost predicate Cools(failed: seq<Cooldown>, c: Cooldown) {
    exists d :: d in failed && Same(d, c.model, c.backend) && d.until >= c.until
  }

  /** An overflow drops an entry only for as many that expire no earlier. */
  lemma PruneKeepsFew(failed: seq<Cooldown>, now: real, d: Cooldown, until: real)
    requires Keyed(failed) && d in failed && now < until <= d.until && |Rivals(failed, until)| <= FAILED_MAX
    ensures d in Pruned(failed, now)
  {
    var kept := Pruned(failed, now);
    PruneMeaning(failed, now);
    if d !in kept {
      forall e | e in kept ensures e in Rivals(failed, until) { PruneDropsSoonest(failed, now, d, e); }
      KeyedSize(kept);
      if kept == [] {
        EmptyPruneDropsNothing(failed, now, d);
      } else {
        PruneDropsSoonest(failed, now, d, kept[0]);
        assert Graphs.Elements(kept) <= Rivals(failed, until) - {d};
        Graphs.SubsetSize(Graphs.Elements(kept), Rivals(failed, until) - {d});
      }
    }
  }

  lemma EmptyPruneDropsNothing(failed: seq<Cooldown>, now: real, d: Cooldown)
    requires d in failed && d.until > now
    ensures Pruned(failed, now) != []
  {
    LiveElements(failed, now);
    CappedElements(Live(failed, now));
  }

  lemma KeyedSize(failed: seq<Cooldown>)
    requires Keyed(failed)
    ensures |Graphs.Elements(failed)| == |failed|
  {
    Graphs.DistinctSize(failed);
  }

  lemma RivalsOfPut(failed: seq<Cooldown>, c: Cooldown, until: real)
    requires Keyed(failed)
    ensures |Rivals(Put(failed, c), until)| <= |Rivals(failed, until)| + 1
  {
    PutElements(failed, c);
    Graphs.SubsetSize(Rivals(Put(failed, c), until), Rivals(failed, until) + {c});
  }

  lemma RivalsOfPruned(failed: seq<Cooldown>, now: real, until: real)
    ensures |Rivals(Pruned(failed, now), until)| <= |Rivals(failed, until)|
  {
    PruneMeaning(failed, now);
    Graphs.SubsetSize(Rivals(Pruned(failed, now), until), Rivals(failed, until));
  }

  lemma RivalsOfPop(failed: seq<Cooldown>, model: string, backend: nat, until: real)
    requires Keyed(failed)
    ensures |Rivals(Pop(failed, model, backend), until)| <= |Rivals(failed, until)|
  {
    PopElements(failed, model, backend);
    Graphs.SubsetSize(Rivals(Pop(failed, model, backend), until), Rivals(failed, until));
  }

  /** The note does not touch the key of `c`, or makes it cool for longer, and comes before `c` expires. */
  predicate Spares(n: Noted, c: Cooldown) {
    match n
    case Failed(d, at) => 0.0 <= at < c.until && (Same(d, c.model, c.backend) ==> d.until >= c.until)
    case Succeeded(model, backend) => !Same(c, model, backend)
  }

  lemma NoteSpares(failed: seq<Cooldown>, n: Noted, c: Cooldown, room: nat)
    requires Keyed(failed) && Cools(failed, c) && Spares(n, c)
    requires |Rivals(failed, c.until)| + (if n.Failed? then 1 else 0) + room <= FAILED_MAX
    ensures var next := AfterNotes(failed, [n]);
            Keyed(next) && Cools(next, c) && |Rivals(next, c.until)| + room <= FAILED_MAX
  {
    var d :| d in failed && Same(d, c.model, c.backend) && d.until >= c.until;
    match n {
      case Failed(e, at) =>
        var put := Put(failed, e);
        PutElements(failed, e);
        RivalsOfPut(failed, e, c.until);
        RivalsOfPruned(put, at, c.until);
        PruneMeaning(put, at);
        var stays := if Same(e, c.model, c.backend) then e else d;
        assert stays in put;
        PruneKeepsFew(put, at, stays, c.until);
        assert AfterNotes(failed, [n]) == Pruned(put, at);
      case Succeeded(model, backend) =>
        PopElements(failed, model, backend);
        RivalsOfPop(failed, model, backend, c.until);
        assert d in Pop(failed, model, backend);
        assert AfterNotes(failed, [n]) == Pop(failed, model, backend);
    }
  }

  /** A cooldown outlasts any notes in between, as long as the entries that expire no earlier fit in the table with it. */
  lemma {:induction false} NotesSpare(failed: seq<Cooldown>, notes: seq<Noted>, c: Cooldown)
    requires Keyed(failed) && Cools(failed, c) && forall n | n in notes :: Spares(n, c)
    requires |Rivals(failed, c.until)| + Failures(notes) <= FAILED_MAX
    ensures Keyed(AfterNotes(failed, notes)) && Cools(AfterNotes(failed, notes), c)
    ensures |Rivals(AfterNotes(failed, notes), c.until)| <= FAILED_MAX
    decreases |notes|
  {
    if notes != [] {
      assert notes[0] in notes;
      NoteSpares(failed, notes[0], c, Failures(notes[1..]));
      NotesSpare(AfterNotes(failed, [notes[0]]), notes[1..], c);
    }
  }

  /**
   * The same with any other failures and successes noted between the failure and the retry, fewer failures than
   * the table has room for: the retry avoids the backend whenever some other one is available by then.
   */
  lemma LaterRetryAvoidsFailure(
      failed: seq<Cooldown>, c: Cooldown, noted: real, notes: seq<Noted>, retried: real,
      inflight: seq<nat>, recent: seq<seq<string>>, spillover: nat, idx: nat, other: nat)
    requires Keyed(failed) && |failed| <= FAILED_MAX && forall d | d in failed :: d.until < c.until
    requires c.model != "" && 0.0 <= noted < c.until && 0.0 <= retried < c.until
    requires Failures(notes) < FAILED_MAX && forall n | n in notes :: Spares(n, c)
    requires |recent| == |inflight| && other < |inflight|
    requires var later := Pruned(AfterNotes(Pruned(Put(failed, c), noted), notes), retried);
             Until(later, c.model, other) <= retried && Picked(inflight, recent, later, spillover, c.model, retried, idx)
    ensures idx != c.backend
  {
    var put := Put(failed, c);
    var first := Pruned(put, noted);
    PutElements(failed, c);
    assert Rivals(put, c.until) <= {c};
    Graphs.SubsetSize(Rivals(put, c.until), {c});
    PruneMeaning(put, noted);
    PruneKeepsFew(put, noted, c, c.until);
    RivalsOfPruned(put, noted, c.until);
    NotesSpare(first, notes, c);
    var table := AfterNotes(first, notes);
    var d :| d in table && Same(d, c.model, c.backend) && d.until >= c.until;
    PruneKeepsFew(table, retried, d, c.until);
    PruneMeaning(table, retried);
    UntilOf(Pruned(table, retried), d);
  }
}
