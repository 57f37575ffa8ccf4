/** Fencing and timed exclusivity of processing leases, over every run of any number of workers. */
module Leases {
  import opened IsoTime
  import opened JobTable
  import opened Jobs
  import opened Text

  /** A clock reading and its text; a genuine stamp's text is the instant's `isoformat()`. */
  datatype Stamp = Stamp(time: Instant, text: string) {
    predicate Genuine() {
      text == Iso(time)
    }
  }

  /**
   * One atomic step on the table. `at` is when it takes effect, `now` the clock reading that the caller
   * took before it; a scan followed by a compare-and-set per row is one `ReclaimRow` for each row.
   * `Read` is one `get`, and `Listing` the listing of the job's label group, which may raise.
   */
  datatype Event =
    | Enqueue(id: string, row: Row)
    | Claim(id: string, at: Instant, now: Stamp, expires: Stamp, token: nat)
    | Heartbeat(id: string, at: Instant, now: Stamp, expires: Stamp, token: nat)
    | Complete(id: string, now: Stamp, token: nat, result: Result)
    | Overwrite(id: string, now: Stamp, result: Result)
    | CancelMark(id: string, now: Stamp)
    | ReclaimRow(id: string, at: Instant, now: Stamp)
    | Requeue(id: string, now: Stamp, allowed: set<Status>)
    | Delete(id: string)
    | Read(id: string)
    | Listing(id: string, raised: bool)

  /** Whether the step changes its row. */
  predicate Succeeds(rows: Rows, e: Event) {
    match e
    case Enqueue(id, row) => id !in rows && !KeyTaken(rows, row.correlationId, row.idempotencyKey)
    case Claim(id, _, now, _, _) => Claimable(rows, id, now.text)
    case Heartbeat(id, _, _, _, token) => Owns(rows, id, token)
    case Complete(id, _, token, _) => Owns(rows, id, token)
    case Overwrite(id, _, _) => id in rows
    case CancelMark(id, _) => id in rows
    case ReclaimRow(id, _, now) => id in rows && Stale(rows[id], now.text)
    case Requeue(id, _, allowed) => id in rows && rows[id].status in allowed
    case Delete(id) => id in rows
    case Read(_) => false
    case Listing(_, _) => false
  }

  function Changed(row: Row, e: Event): Row {
    match e
    case Claim(_, _, now, expires, token) => Claimed(row, now.text, expires.text, token)
    case Heartbeat(_, _, now, expires, _) => Extended(row, now.text, expires.text)
    case Complete(_, now, _, result) => Ended(row, result, now.text)
    case Overwrite(_, now, result) => Ended(row, result, now.text)
    case CancelMark(_, now) => row.(status := Cancelled, updatedAt := now.text)
    case ReclaimRow(_, _, now) => Recovered(row, now.text)
    case Requeue(_, now, _) => Reset(row, now.text)
    case _ => row
  }

  function Step(rows: Rows, e: Event): Rows {
    if !Succeeds(rows, e) then rows
    else if e.Enqueue? then rows[e.id := e.row]
    else if e.Delete? then rows - {e.id}
    else rows[e.id := Changed(rows[e.id], e)]
  }

  /** One line of a run's log: the step, whether it changed its row, and the table after it. */
  datatype Entry = Entry(event: Event, ok: bool, rows: Rows)

  type Log = seq<Entry>

  function Before(h: Log, k: nat): Rows
    requires k <= |h|
  {
    if k == 0 then map[] else h[k - 1].rows
  }

  /** New rows are QUEUED without a lease, results are terminal, and only terminal jobs are requeued. */
  predicate WellFormed(e: Event) {
    match e
    case Enqueue(_, row) => row.status.Queued? && row.leaseToken.None? && row.leaseExpiresAt.None?
    case Complete(_, _, _, result) => result.status.Terminal()
    case Overwrite(_, _, result) => result.status.Terminal()
    case Requeue(_, _, allowed) => Queued !in allowed && Processing !in allowed
    case _ => true
  }

  predicate Follows(h: Log, k: nat)
    requires k < |h|
  {
    && WellFormed(h[k].event)
    && h[k].ok == Succeeds(Before(h, k), h[k].event)
    && h[k].rows == Step(Before(h, k), h[k].event)
  }

  /** A run of the table from empty: any steps, by any number of workers, in any order. */
  ghost predicate IsRun(h: Log) {
    forall k | 0 <= k < |h| :: Follows(h, k)
  }

  /** The step takes the lease away from whoever holds it. */
  predicate Fences(e: Event) {
    e.Complete? || e.Overwrite? || e.CancelMark? || e.ReclaimRow? || e.Requeue? || e.Delete?
  }

  /** The index of the job's latest successful claim before step `n`, unless a later successful step fenced it off. */
  function Holder(h: Log, n: nat, id: string): Option<nat>
    requires n <= |h|
  {
    if n == 0 then None
    else if h[n - 1].event.id != id || !h[n - 1].ok then Holder(h, n - 1, id)
    else if h[n - 1].event.Claim? then Some(n - 1)
    else if Fences(h[n - 1].event) then None
    else Holder(h, n - 1, id)
  }

  /** What `Holder` says about the history: a successful claim, and nothing after it fenced the job or claimed it. */
  lemma {:induction false} HolderMeaning(h: Log, n: nat, id: string)
    requires n <= |h| && Holder(h, n, id).Some?
    ensures
      var k := Holder(h, n, id).value;
      && k < n && h[k].event.Claim? && h[k].event.id == id && h[k].ok
      && forall m | k < m < n && h[m].event.id == id && h[m].ok :: !h[m].event.Claim? && !Fences(h[m].event)
  {
    if h[n - 1].event.id != id || !h[n - 1].ok || !h[n - 1].event.Claim? { HolderMeaning(h, n - 1, id); }
  }

  /** The row of a job that `claim` holds: PROCESSING under the claim's token. A job nobody holds is not PROCESSING. */
  predicate HeldBy(rows: Rows, id: string, token: Option<nat>) {
    match token
    case Some(t) => Owns(rows, id, t)
    case None => id in rows ==> !rows[id].status.Processing?
  }

  function HolderToken(h: Log, n: nat, id: string): Option<nat>
    requires n <= |h|
  {
    var k := Holder(h, n, id);
    if k.Some? && k.value < |h| && h[k.value].event.Claim? then Some(h[k.value].event.token) else None
  }

  lemma OtherRowsStay(rows: Rows, e: Event, id: string)
    requires e.id != id
    ensures id in Step(rows, e) <==> id in rows
    ensures id in rows ==> Step(rows, e)[id] == rows[id]
  {
  }

  /** One step on the job's own row. */
  lemma OwnStep(rows: Rows, e: Event, token: Option<nat>)
    requires WellFormed(e) && HeldBy(rows, e.id, token)
    ensures HeldBy(Step(rows, e), e.id,
                   if !Succeeds(rows, e) then token
                   else if e.Claim? then Some(e.token)
                   else if Fences(e) then None
                   else token)
  {
  }

  /** A job is PROCESSING exactly while its latest claim is unfenced, and then it carries that claim's token. */
  lemma {:induction false} TokenIsLatestClaims(h: Log, n: nat, id: string)
    requires IsRun(h) && n <= |h|
    ensures HeldBy(Before(h, n), id, HolderToken(h, n, id))
  {
    if n > 0 {
      TokenIsLatestClaims(h, n - 1, id);
      assert Follows(h, n - 1);
      var e := h[n - 1].event;
      if Holder(h, n - 1, id).Some? { HolderMeaning(h, n - 1, id); }
      if e.id == id {
        OwnStep(Before(h, n - 1), e, HolderToken(h, n - 1, id));
      } else {
        OtherRowsStay(Before(h, n - 1), e, id);
      }
    }
  }

  /** The row of the job was stored by the enqueue at step `e`, and nothing has deleted or stored it since. */
  ghost predicate StoredAt(h: Log, e: nat, n: nat, id: string)
    requires n <= |h|
  {
    && e < n && h[e].event.Enqueue? && h[e].event.id == id && h[e].ok
    && forall m | e < m < n && h[m].event.id == id && h[m].ok :: !h[m].event.Enqueue? && !h[m].event.Delete?
  }

  /** A stored row keeps the `run_at` of the enqueue that stored it. */
  lemma {:induction false} RunAtIsEnqueued(h: Log, n: nat, id: string) returns (e: nat)
    requires IsRun(h) && n <= |h| && id in Before(h, n)
    ensures StoredAt(h, e, n, id) && Before(h, n)[id].runAt == h[e].event.row.runAt
  {
    assert Follows(h, n - 1);
    if h[n - 1].event.id == id && h[n - 1].ok && h[n - 1].event.Enqueue? {
      e := n - 1;
    } else {
      if h[n - 1].event.id != id { OtherRowsStay(Before(h, n - 1), h[n - 1].event, id); }
      e := RunAtIsEnqueued(h, n - 1, id);
    }
  }

  /**
   * No job starts early: a claim that succeeds is of a row whose `run_at`, the one it was enqueued with, is no later
   * than the clock reading the worker took, nor than the claim itself.
   */
  lemma ClaimIsNotEarly(h: Log, k: nat) returns (e: nat)
    requires IsRun(h) && GenuineStamps(h) && Clocked(h)
    requires k < |h| && h[k].event.Claim? && h[k].ok
    ensures StoredAt(h, e, k, h[k].event.id)
    ensures forall t: Instant | h[e].event.row.runAt == Some(Iso(t)) :: t <= h[k].event.now.time <= h[k].event.at
  {
    assert Follows(h, k);
    e := RunAtIsEnqueued(h, k, h[k].event.id);
    assert Timed(h[k].event);
    DueAndStaleInInstants(Before(h, k)[h[k].event.id], h[k].event.now.time);
  }

  /** And none is refused for its date once that has come. */
  lemma DueClaimSucceeds(h: Log, k: nat, t: Instant)
    requires IsRun(h) && GenuineStamps(h) && k < |h| && h[k].event.Claim? && h[k].event.id in Before(h, k)
    requires Before(h, k)[h[k].event.id].runAt in {None, Some(Iso(t))} && t <= h[k].event.now.time
    ensures h[k].ok <==> Before(h, k)[h[k].event.id].status.Queued?
  {
    assert Follows(h, k) && Timed(h[k].event);
    DueAndStaleInInstants(Before(h, k)[h[k].event.id], h[k].event.now.time);
  }

  /** A job that is neither PROCESSING nor CANCELLED has no lease; a cancel's first write leaves the lease behind. */
  lemma {:induction false} LeaseEndsWithJob(h: Log, n: nat, id: string)
    requires IsRun(h) && n <= |h|
    ensures id in Before(h, n) && !Before(h, n)[id].status.Processing? && !Before(h, n)[id].status.Cancelled? ==>
              Before(h, n)[id].leaseToken.None? && Before(h, n)[id].leaseExpiresAt.None?
  {
    if n > 0 {
      LeaseEndsWithJob(h, n - 1, id);
      assert Follows(h, n - 1);
      if h[n - 1].event.id != id { OtherRowsStay(Before(h, n - 1), h[n - 1].event, id); }
    }
  }

  /** Every step that changes a stored row stamps it with its clock reading and touches nothing of the request. */
  lemma ChangesAreStamped(rows: Rows, e: Event)
    requires Succeeds(rows, e) && !e.Enqueue? && !e.Delete?
    ensures e.id in rows && Step(rows, e).Keys == rows.Keys
    ensures var row, next := rows[e.id], Step(rows, e)[e.id];
      && next.updatedAt == e.now.text
      && next.request == row.request && next.runAt == row.runAt
      && next.correlationId == row.correlationId && next.idempotencyKey == row.idempotencyKey
      && (next.result != row.result ==> e.Complete? || e.Overwrite? || e.Requeue?)
      && (next.published != row.published ==> e.Requeue? && !next.published)
  {
  }

  /** `uuid4` never repeats: no two claims carry the same token. */
  ghost predicate DistinctTokens(h: Log) {
    forall i, j | 0 <= i < j < |h| && h[i].event.Claim? && h[j].event.Claim? :: h[i].event.token != h[j].event.token
  }

  predicate Landed(h: Log, i: nat)
    requires i < |h|
  {
    h[i].event.Complete? && h[i].ok
  }

  /**
   * Fencing. A token-gated result that lands belongs to a claim of the same job under the same token, and
   * between the two no other claim, reclaim, cancel, requeue, delete or result of that job succeeded.
   */
  lemma LandedResultIsUnfenced(h: Log, i: nat) returns (k: nat)
    requires IsRun(h) && i < |h| && Landed(h, i)
    ensures k < i && h[k].event.Claim? && h[k].ok
    ensures h[k].event.id == h[i].event.id && h[k].event.token == h[i].event.token
    ensures forall m | k < m < i && h[m].event.id == h[i].event.id && h[m].ok :: !h[m].event.Claim? && !Fences(h[m].event)
  {
    var id := h[i].event.id;
    TokenIsLatestClaims(h, i, id);
    assert Follows(h, i);
    HolderMeaning(h, i, id);
    k := Holder(h, i, id).value;
  }

  /** Each claim lands at most one token-gated result, whatever the other workers do. */
  lemma OneResultPerClaim(h: Log, i: nat, j: nat)
    requires IsRun(h) && DistinctTokens(h)
    requires i < |h| && j < |h| && Landed(h, i) && Landed(h, j)
    requires h[i].event.token == h[j].event.token
    ensures i == j
  {
    var k := LandedResultIsUnfenced(h, i);
    var m := LandedResultIsUnfenced(h, j);
  }

  /** The job is leased under `token` until at least `until`. */
  predicate Covered(rows: Rows, id: string, token: nat, until: Stamp) {
    Owns(rows, id, token) && rows[id].leaseExpiresAt.Some? && StrLe(until.text, rows[id].leaseExpiresAt.value)
  }

  /** The holder's own result, or one of the writes that need no token. */
  predicate Ends(e: Event, token: nat) {
    (e.Complete? && e.token == token) || e.Overwrite? || e.CancelMark? || e.Delete?
  }

  predicate Timed(e: Event) {
    e.Claim? || e.Heartbeat? || e.ReclaimRow?
  }

  /** Every timestamp in the log is the text of its instant. */
  ghost predicate GenuineStamps(h: Log) {
    && (forall k | 0 <= k < |h| && Timed(h[k].event) :: h[k].event.now.Genuine())
    && (forall k | 0 <= k < |h| && (h[k].event.Claim? || h[k].event.Heartbeat?) :: h[k].event.expires.Genuine())
  }

  /** Steps take effect in the order of one clock, and a clock reading is never ahead of its step. */
  ghost predicate Clocked(h: Log) {
    && (forall k | 0 <= k < |h| && Timed(h[k].event) :: h[k].event.now.time <= h[k].event.at)
    && (forall k, m | 0 <= k < m < |h| && Timed(h[k].event) && Timed(h[m].event) :: h[k].event.at <= h[m].event.at)
  }

  /** A step of another kind, or one that comes too early, cannot take a covered job away. */
  lemma CoverStays(rows: Rows, e: Event, id: string, token: nat, until: Stamp)
    requires WellFormed(e) && Covered(rows, id, token, until)
    requires e.id == id && Succeeds(rows, e) ==> !Ends(e, token)
    requires e.id == id && e.Heartbeat? && e.token == token ==> StrLe(until.text, e.expires.text)
    requires e.id == id && e.ReclaimRow? ==> StrLe(e.now.text, until.text)
    ensures Covered(Step(rows, e), id, token, until)
  {
    if e.id != id {
      OtherRowsStay(rows, e, id);
    } else if e.ReclaimRow? {
      StrLeTransitive(e.now.text, until.text, rows[id].leaseExpiresAt.value);
    }
  }

  /** Heartbeats under the token of step `i` do not pull its expiry back before step `j`. */
  ghost predicate NotShortened(h: Log, i: nat, j: nat)
    requires i < |h| && j <= |h| && (h[i].event.Claim? || h[i].event.Heartbeat?)
  {
    forall m | i < m < j && h[m].event.Heartbeat? && h[m].event.id == h[i].event.id && h[m].event.token == h[i].event.token ::
      h[i].event.expires.time <= h[m].event.expires.time
  }

  /** What step `m` would have to be to take the job away between `i` and the expiry of step `i`. */
  predicate Harmless(h: Log, i: nat, m: nat)
    requires i < |h| && m < |h| && (h[i].event.Claim? || h[i].event.Heartbeat?)
  {
    var e, id, token, until := h[m].event, h[i].event.id, h[i].event.token, h[i].event.expires;
    && (e.id == id && h[m].ok ==> !Ends(e, token))
    && (e.id == id && e.Heartbeat? && e.token == token ==> StrLe(until.text, e.expires.text))
    && (e.id == id && e.ReclaimRow? ==> StrLe(e.now.text, until.text))
  }

  lemma {:induction false} StaysCovered(h: Log, i: nat, n: nat)
    requires IsRun(h) && i < n <= |h| && (h[i].event.Claim? || h[i].event.Heartbeat?) && h[i].ok
    requires forall m | i < m < n :: Harmless(h, i, m)
    ensures Covered(Before(h, n), h[i].event.id, h[i].event.token, h[i].event.expires)
    decreases n
  {
    if n == i + 1 {
      assert Follows(h, i);
      StrLeTotal(h[i].event.expires.text, h[i].event.expires.text);
    } else {
      StaysCovered(h, i, n - 1);
      assert Follows(h, n - 1) && Harmless(h, i, n - 1);
      CoverStays(Before(h, n - 1), h[n - 1].event, h[i].event.id, h[i].event.token, h[i].event.expires);
    }
  }

  lemma NothingClaimsCovered(h: Log, j: nat, id: string, token: nat, until: Stamp)
    requires IsRun(h) && j < |h| && Covered(Before(h, j), id, token, until)
    ensures !(h[j].event.Claim? && h[j].ok && h[j].event.id == id)
  {
    assert Follows(h, j);
  }

  /**
   * Timed exclusivity. After a successful claim or heartbeat whose lease runs to `expires`, no other claim of
   * the job succeeds up to then, unless the holder's result landed or a cancel, an untokened write or a delete
   * came in between. Reclaims may use a clock reading taken long before they take effect, so this covers a
   * scan with one compare-and-set per row and a heartbeat that lands between the two.
   */
  lemma TimedExclusivity(h: Log, i: nat, j: nat) returns (m: nat)
    requires IsRun(h) && GenuineStamps(h) && Clocked(h)
    requires i < j < |h| && h[i].ok && (h[i].event.Claim? || h[i].event.Heartbeat?)
    requires NotShortened(h, i, j)
    requires h[j].event.Claim? && h[j].ok && h[j].event.id == h[i].event.id
    requires h[j].event.at <= h[i].event.expires.time
    ensures i < m < j && h[m].event.id == h[i].event.id && h[m].ok
    ensures (h[m].event.Complete? && h[m].event.token == h[i].event.token)
            || h[m].event.Overwrite? || h[m].event.CancelMark? || h[m].event.Delete?
  {
    var token := h[i].event.token;
    if k :| i < k < j && h[k].event.id == h[i].event.id && h[k].ok && Ends(h[k].event, token) {
      return k;
    }
    forall k | i < k < j ensures Harmless(h, i, k) {
      if h[k].event.ReclaimRow? {
        assert h[k].event.now.time <= h[k].event.at <= h[j].event.at;
        IsoOrder(h[k].event.now.time, h[i].event.expires.time);
      } else if h[k].event.Heartbeat? {
        IsoOrder(h[i].event.expires.time, h[k].event.expires.time);
      }
    }
    StaysCovered(h, i, j);
    NothingClaimsCovered(h, j, h[i].event.id, token, h[i].event.expires);
    assert false;
  }

  /** Step `k` claims or extends the job under the token of step `i`. */
  predicate SameLease(h: Log, i: nat, k: nat)
    requires i < |h| && k < |h| && (h[i].event.Claim? || h[i].event.Heartbeat?)
  {
    (h[k].event.Claim? || h[k].event.Heartbeat?) && h[k].event.id == h[i].event.id && h[k].event.token == h[i].event.token
  }

  /**
   * One claim and its heartbeats ask for one lease length. Each call reads the clock twice before it takes
   * effect, first for `now` and then for the expiry, and starts after the one before it has taken effect.
   */
  ghost predicate OneLength(h: Log, i: nat, lease: int)
    requires i < |h| && (h[i].event.Claim? || h[i].event.Heartbeat?)
  {
    && (forall k | 0 <= k < |h| && SameLease(h, i, k) ::
          h[k].event.now.time + lease <= h[k].event.expires.time <= h[k].event.at + lease)
    && forall k, m | 0 <= k < m < |h| && SameLease(h, i, k) && SameLease(h, i, m) :: h[k].event.at <= h[m].event.now.time
  }

  /** With one lease length expiries never move back, whatever clock readings the others work with. */
  lemma OneLeaseLength(h: Log, i: nat, j: nat, lease: int)
    requires i < j <= |h| && (h[i].event.Claim? || h[i].event.Heartbeat?) && OneLength(h, i, lease)
    ensures NotShortened(h, i, j)
  {
    assert SameLease(h, i, i);
    forall m | i < m < j && h[m].event.Heartbeat? && h[m].event.id == h[i].event.id && h[m].event.token == h[i].event.token
      ensures h[i].event.expires.time <= h[m].event.expires.time
    {
      assert SameLease(h, i, m);
    }
  }

  /** A worker that claims or extends after reading `now`, with lease length `lease`, has the job to itself up to `now + lease`. */
  lemma LeaseIsExclusive(h: Log, i: nat, j: nat, lease: int) returns (m: nat)
    requires IsRun(h) && GenuineStamps(h) && Clocked(h)
    requires i < j < |h| && h[i].ok && (h[i].event.Claim? || h[i].event.Heartbeat?) && OneLength(h, i, lease)
    requires h[j].event.Claim? && h[j].ok && h[j].event.id == h[i].event.id
    requires h[j].event.at <= h[i].event.now.time + lease
    ensures i < m < j && h[m].event.id == h[i].event.id && h[m].ok
    ensures (h[m].event.Complete? && h[m].event.token == h[i].event.token)
            || h[m].event.Overwrite? || h[m].event.CancelMark? || h[m].event.Delete?
  {
    OneLeaseLength(h, i, j, lease);
    assert SameLease(h, i, i);
    m := TimedExclusivity(h, i, j);
  }

  function StepAll(rows: Rows, es: seq<Event>): Rows
    decreases |es|
  {
    if es == [] then rows else StepAll(Step(rows, es[0]), es[1..])
  }

  function ReclaimSteps(ids: seq<string>, at: Instant, now: Stamp): seq<Event> {
    if ids == [] then [] else [ReclaimRow(ids[0], at, now)] + ReclaimSteps(ids[1..], at, now)
  }

  /** Reclaiming a list in one locked call is reclaiming its rows one after the other. */
  lemma {:induction false} ReclaimIsRowByRow(rows: Rows, ids: seq<string>, at: Instant, now: Stamp)
    ensures ReclaimEach(rows, ids, now.text) == StepAll(rows, ReclaimSteps(ids, at, now))
  {
    if ids != [] { ReclaimIsRowByRow(Step(rows, ReclaimRow(ids[0], at, now)), ids[1..], at, now); }
  }

  lemma StepKeepsUniqueKeys(rows: Rows, e: Event)
    requires UniqueKeys(rows)
    ensures UniqueKeys(Step(rows, e))
  {
    if !Succeeds(rows, e) {
    } else if e.Enqueue? {
      InsertKeepsUniqueKeys(rows, e.id, e.row);
    } else if !e.Delete? {
      UpdateKeepsUniqueKeys(rows, e.id, Changed(rows[e.id], e));
    }
  }

  /** Every locked method of the store is one step of the run. */
  method Perform(store: SQLiteJobStore, e: Event) returns (ok: bool)
    requires WellFormed(e) && UniqueKeys(store.rows)
    requires e.Enqueue? ==> e.row == Fresh(e.row.request, e.row.runAt, e.row.updatedAt, e.row.correlationId, e.row.idempotencyKey)
    modifies store
    ensures ok <==> Succeeds(old(store.rows), e)
    ensures store.rows == Step(old(store.rows), e) && UniqueKeys(store.rows)
  {
    StepKeepsUniqueKeys(store.rows, e);
    match e {
      case Enqueue(id, row) =>
        var known := id in store.rows;
        var stored := store.Enqueue(id, row.request, row.runAt, row.updatedAt, row.correlationId, row.idempotencyKey);
        ok := !known && stored == Some(id);
      case Claim(id, _, now, expires, token) => ok := store.ClaimForProcessing(id, now.text, expires.text, token);
      case Heartbeat(id, _, now, expires, token) => ok := store.Heartbeat(id, token, now.text, expires.text);
      case Complete(id, now, token, result) => ok := store.SetResult(id, result, now.text, Some(token));
      case Overwrite(id, now, result) => ok := store.SetResult(id, result, now.text, None);
      case CancelMark(id, now) =>
        ok := id in store.rows;
        store.UpdateStatus(id, Cancelled, now.text);
      case ReclaimRow(id, _, now) =>
        var reclaimed := store.ReclaimStaleLeases([id], now.text);
        ok := id in reclaimed;
      case Requeue(id, now, allowed) => ok := store.Requeue(id, allowed, now.text);
      case Delete(id) => ok := store.DeleteJob(id);
      case Read(_) => ok := false;
      case Listing(_, _) => ok := false;
    }
  }

  predicate TerminalAt(rows: Rows, id: string) {
    id in rows && rows[id].status.Terminal()
  }

  /** Step `k` puts the job into a terminal status. */
  predicate Finishes(h: Log, k: nat, id: string)
    requires k < |h|
  {
    h[k].ok && h[k].event.id == id && (h[k].event.Complete? || h[k].event.Overwrite? || h[k].event.CancelMark?)
  }

  /** No step from `from` up to `to` requeues or deletes the job. */
  ghost predicate NotReopened(h: Log, from: nat, to: nat, id: string)
    requires to <= |h|
  {
    forall k | from <= k < to && h[k].ok && h[k].event.id == id :: !h[k].event.Requeue? && !h[k].event.Delete?
  }

  lemma OneStepTerminal(rows: Rows, e: Event)
    requires WellFormed(e)
    ensures TerminalAt(Step(rows, e), e.id) <==>
            if !Succeeds(rows, e) then TerminalAt(rows, e.id)
            else e.Complete? || e.Overwrite? || e.CancelMark? || (TerminalAt(rows, e.id) && !e.Requeue? && !e.Delete?)
  {
  }

  /** A job that was open before step `r` is terminal before step `n` exactly when a terminal write landed that nothing undid. */
  lemma {:induction false} TerminalSince(h: Log, r: nat, n: nat, id: string)
    requires IsRun(h) && r <= n <= |h| && !TerminalAt(Before(h, r), id)
    ensures TerminalAt(Before(h, n), id) <==> exists k :: r <= k < n && Finishes(h, k, id) && NotReopened(h, k + 1, n, id)
    decreases n
  {
    if r < n {
      TerminalSince(h, r, n - 1, id);
      assert Follows(h, n - 1);
      var e := h[n - 1].event;
      if e.id != id {
        OtherRowsStay(Before(h, n - 1), e, id);
      } else {
        OneStepTerminal(Before(h, n - 1), e);
      }
      forall k | r <= k < n - 1 && Finishes(h, k, id)
        ensures NotReopened(h, k + 1, n, id) <==> NotReopened(h, k + 1, n - 1, id) && NotReopened(h, n - 1, n, id)
      {
      }
      if Finishes(h, n - 1, id) { assert NotReopened(h, n, n, id); }
    }
  }

  /**
   * The client's cancel is a read, which refuses a terminal job, followed by two untokened writes. Its first
   * write hits a terminal job exactly when a terminal write landed after the read and was not undone.
   */
  lemma CancelOverwritesIff(h: Log, r: nat, m: nat)
    requires IsRun(h) && r < m < |h| && h[r].event.Read? && h[m].event.CancelMark? && h[m].event.id == h[r].event.id
    requires h[r].event.id in Before(h, r) && !TerminalAt(Before(h, r), h[r].event.id)
    ensures var id := h[r].event.id;
            && (TerminalAt(Before(h, m), id) <==>
                  exists k :: r < k < m && Finishes(h, k, id) && NotReopened(h, k + 1, m, id))
            && (TerminalAt(Before(h, m), id) ==> h[m].ok && id in h[m].rows && h[m].rows[id].status.Cancelled?)
  {
    var id := h[r].event.id;
    TerminalSince(h, r, m, id);
    assert Follows(h, m);
    if k :| r <= k < m && Finishes(h, k, id) && NotReopened(h, k + 1, m, id) {
      assert k != r;
    }
  }

  /** A run in which a cancel reads PROCESSING, the worker's COMPLETED lands, and the cancel's writes replace it. */
  lemma SplitCancelOverwritesResult(row: Row, t: Stamp) returns (h: Log)
    requires row.status.Queued? && row.leaseToken.None? && row.leaseExpiresAt.None? && row.runAt.None?
    ensures IsRun(h) && |h| == 6
    ensures h[2].event == Read("job") && "job" in Before(h, 2) && Before(h, 2)["job"].status.Processing?
    ensures Landed(h, 3) && h[3].event.result.status.Completed?
    ensures h[4].event.CancelMark? && h[5].event.Overwrite? && "job" in h[5].rows && h[5].rows["job"].status.Cancelled?
  {
    h := Logged([], Enqueue("job", row));
    h := Logged(h, Claim("job", t.time, t, t, 7));
    h := Logged(h, Read("job"));
    h := Logged(h, Complete("job", t, 7, Result(Completed, "output")));
    assert Landed(h, 3);
    h := Logged(h, CancelMark("job", t));
    h := Logged(h, Overwrite("job", t, Result(Cancelled, "")));
  }

  /**
   * A worker whose claim raised has no token. It refuses only a CANCELLED job, so that its FAILED replaces
   * the result another worker has stored.
   */
  lemma UntokenedFailureOverwritesResult(row: Row, t: Stamp) returns (h: Log)
    requires row.status.Queued? && row.leaseToken.None? && row.leaseExpiresAt.None? && row.runAt.None?
    ensures IsRun(h) && |h| == 5
    ensures Landed(h, 2) && h[2].event.result.status.Completed?
    ensures h[3].event == Read("job") && "job" in Before(h, 3) && Before(h, 3)["job"].status.Completed?
    ensures h[4].event.Overwrite? && "job" in h[4].rows && h[4].rows["job"].status.Failed?
  {
    h := Logged([], Enqueue("job", row));
    h := Logged(h, Claim("job", t.time, t, t, 7));
    h := Logged(h, Complete("job", t, 7, Result(Completed, "output")));
    assert Landed(h, 2);
    h := Logged(h, Read("job"));
    h := Logged(h, Overwrite("job", t, Result(Failed, "Unexpected worker error")));
  }

  /** The log with one more step. */
  function Logged(h: Log, e: Event): (r: Log)
    requires WellFormed(e)
    ensures |r| == |h| + 1 && r[..|h|] == h && r[|h|].event == e && Follows(r, |h|)
    ensures IsRun(h) ==> IsRun(r)
  {
    assert forall k | 0 <= k < |h| && Follows(h, k) :: Follows(h + [Entry(e, Succeeds(Before(h, |h|), e), Step(Before(h, |h|), e))], k);
    h + [Entry(e, Succeeds(Before(h, |h|), e), Step(Before(h, |h|), e))]
  }
}
