/** The jobs table of the SQLite store: every locked method is one atomic step on the rows. */
module JobTable {
  import opened IsoTime
  import opened Jobs
  import opened Text

  predicate Due(row: Row, now: string) {
    row.runAt.None? || StrLe(row.runAt.value, now)
  }

  /** PROCESSING with an expired or missing lease. */
  predicate Stale(row: Row, now: string) {
    row.status.Processing? && (row.leaseExpiresAt.None? || StrLt(row.leaseExpiresAt.value, now))
  }

  /** With genuine dates: a job is due from its instant on, and a lease is stale from the one after its expiry. */
  lemma DueAndStaleInInstants(row: Row, n: Instant)
    ensures row.runAt.None? ==> Due(row, Iso(n))
    ensures forall t: Instant | row.runAt == Some(Iso(t)) :: Due(row, Iso(n)) <==> t <= n
    ensures row.leaseExpiresAt.None? ==> (Stale(row, Iso(n)) <==> row.status.Processing?)
    ensures forall t: Instant | row.leaseExpiresAt == Some(Iso(t)) :: Stale(row, Iso(n)) <==> row.status.Processing? && t < n
  {
    forall t: Instant | row.runAt == Some(Iso(t)) ensures Due(row, Iso(n)) <==> t <= n { IsoOrder(t, n); }
    forall t: Instant | row.leaseExpiresAt == Some(Iso(t)) ensures Stale(row, Iso(n)) <==> row.status.Processing? && t < n {
      IsoOrder(t, n);
    }
  }

  predicate Owns(rows: Rows, id: string, token: nat) {
    id in rows && rows[id].status.Processing? && rows[id].leaseToken == Some(token)
  }

  predicate Claimable(rows: Rows, id: string, now: string) {
    id in rows && rows[id].status.Queued? && Due(rows[id], now)
  }

  function Claimed(row: Row, now: string, expires: string, token: nat): Row {
    row.(status := Processing, updatedAt := now, leaseExpiresAt := Some(expires), leaseToken := Some(token))
  }

  function Extended(row: Row, now: string, expires: string): Row {
    row.(updatedAt := now, leaseExpiresAt := Some(expires))
  }

  function Ended(row: Row, result: Result, now: string): Row {
    row.(status := result.status, result := Some(result), updatedAt := now, leaseExpiresAt := None, leaseToken := None)
  }

  function Recovered(row: Row, now: string): Row {
    row.(status := Queued, updatedAt := now, leaseExpiresAt := None, leaseToken := None)
  }

  function Reset(row: Row, now: string): Row {
    row.(status := Queued, updatedAt := now, result := None, leaseExpiresAt := None, leaseToken := None, published := false)
  }

  function Fresh(request: Request, runAt: Option<string>, now: string, correlationId: Option<string>, idempotencyKey: Option<string>): Row {
    Row(Queued, request, runAt, now, None, None, None, correlationId, idempotencyKey, false)
  }

  /** The UNIQUE indexes on `correlation_id` and `idempotency_key`. */
  ghost predicate UniqueKeys(rows: Rows) {
    && (forall a, b | a in rows && b in rows && rows[a].correlationId.Some? && rows[a].correlationId == rows[b].correlationId :: a == b)
    && (forall a, b | a in rows && b in rows && rows[a].idempotencyKey.Some? && rows[a].idempotencyKey == rows[b].idempotencyKey :: a == b)
  }

  predicate KeyTaken(rows: Rows, correlationId: Option<string>, idempotencyKey: Option<string>) {
    || (correlationId.Some? && exists j | j in rows :: rows[j].correlationId == correlationId)
    || (idempotencyKey.Some? && exists j | j in rows :: rows[j].idempotencyKey == idempotencyKey)
  }

  /** The table after an enqueue: one new row, unless a key or the id is taken. */
  function Inserted(rows: Rows, id: string, row: Row): Rows {
    if KeyTaken(rows, row.correlationId, row.idempotencyKey) || id in rows then rows else rows[id := row]
  }

  /** A row that is new is QUEUED, unpublished and without a lease, and holds what was asked for. */
  lemma InsertedRow(rows: Rows, id: string, request: Request, runAt: Option<string>, now: string,
                    correlationId: Option<string>, idempotencyKey: Option<string>)
    requires id !in rows && id in Inserted(rows, id, Fresh(request, runAt, now, correlationId, idempotencyKey))
    ensures var row := Inserted(rows, id, Fresh(request, runAt, now, correlationId, idempotencyKey))[id];
      && row.status.Queued? && row.request == request && row.runAt == runAt && row.updatedAt == now
      && row.correlationId == correlationId && row.idempotencyKey == idempotencyKey
      && row.result.None? && row.leaseToken.None? && row.leaseExpiresAt.None? && !row.published
  {
  }

  lemma InsertKeepsUniqueKeys(rows: Rows, id: string, row: Row)
    requires UniqueKeys(rows)
    ensures UniqueKeys(Inserted(rows, id, row))
  {
  }

  lemma UpdateKeepsUniqueKeys(rows: Rows, id: string, row: Row)
    requires UniqueKeys(rows) && id in rows
    requires row.correlationId == rows[id].correlationId && row.idempotencyKey == rows[id].idempotencyKey
    ensures UniqueKeys(rows[id := row])
  {
  }

  /** Reclaims the listed rows one by one, each re-checked at its own turn. */
  function ReclaimEach(rows: Rows, ids: seq<string>, now: string): Rows {
    if ids == [] then rows
    else ReclaimEach(if ids[0] in rows && Stale(rows[ids[0]], now) then rows[ids[0] := Recovered(rows[ids[0]], now)] else rows,
                     ids[1..], now)
  }

  lemma {:induction false} ReclaimEachSnoc(rows: Rows, ids: seq<string>, id: string, now: string)
    ensures
      var before := ReclaimEach(rows, ids, now);
      ReclaimEach(rows, ids + [id], now) ==
        if id in before && Stale(before[id], now) then before[id := Recovered(before[id], now)] else before
  {
    if ids != [] {
      assert (ids + [id])[1..] == ids[1..] + [id];
      var next := if ids[0] in rows && Stale(rows[ids[0]], now) then rows[ids[0] := Recovered(rows[ids[0]], now)] else rows;
      ReclaimEachSnoc(next, ids[1..], id, now);
    }
  }

  /** Whatever was listed: the stale rows among the listed ones are recovered, every other row is as before. */
  lemma {:induction false} ReclaimEachMeaning(rows: Rows, ids: seq<string>, now: string)
    ensures ReclaimEach(rows, ids, now).Keys == rows.Keys
    ensures forall id | id in rows ::
              ReclaimEach(rows, ids, now)[id] ==
                if id in ids && Stale(rows[id], now) then Recovered(rows[id], now) else rows[id]
  {
    if ids != [] {
      var next := if ids[0] in rows && Stale(rows[ids[0]], now) then rows[ids[0] := Recovered(rows[ids[0]], now)] else rows;
      ReclaimEachMeaning(next, ids[1..], now);
    }
  }

  class SQLiteJobStore {
    var rows: Rows

    constructor ()
      ensures rows == map[]
    {
      rows := map[];
    }

    /** Idempotent on `correlationId`, then on `idempotencyKey`; `None` stands for the IntegrityError of a taken id. */
    method Enqueue(id: string, request: Request, runAt: Option<string>, now: string,
                   correlationId: Option<string>, idempotencyKey: Option<string>) returns (stored: Option<string>)
      requires UniqueKeys(rows)
      modifies this
      ensures UniqueKeys(rows)
      ensures stored.Some? ==> stored.value in rows
      ensures stored.Some? && correlationId.Some? && rows[stored.value].correlationId != correlationId ==>
                idempotencyKey.Some? && rows[stored.value].idempotencyKey == idempotencyKey
      ensures rows == Inserted(old(rows), id, Fresh(request, runAt, now, correlationId, idempotencyKey))
      ensures stored == None <==> id in old(rows) && !KeyTaken(old(rows), correlationId, idempotencyKey)
      ensures stored == Some(id) || stored.None? || KeyTaken(old(rows), correlationId, idempotencyKey)
      ensures correlationId.Some? && (exists j :: j in old(rows) && old(rows)[j].correlationId == correlationId) ==>
                stored.Some? && rows[stored.value].correlationId == correlationId
    {
      if correlationId.Some? {
        if j :| j in rows && rows[j].correlationId == correlationId {
          return Some(j);
        }
      }
      if idempotencyKey.Some? {
        if j :| j in rows && rows[j].idempotencyKey == idempotencyKey {
          return Some(j);
        }
      }
      if id in rows {
        return None;
      }
      rows := rows[id := Fresh(request, runAt, now, correlationId, idempotencyKey)];
      return Some(id);
    }

    /** At instant `n` a QUEUED job is claimed exactly when it has no `run_at`, or one that has come. */
    method ClaimForProcessing(id: string, now: string, expires: string, token: nat) returns (claimed: bool)
      modifies this
      ensures claimed ==> id in old(rows) && old(rows)[id].status.Queued?
      ensures id in old(rows) && old(rows)[id].status.Queued? && old(rows)[id].runAt.None? ==> claimed
      ensures forall t: Instant, n: Instant | id in old(rows) && old(rows)[id].runAt == Some(Iso(t)) && now == Iso(n) ::
                claimed <==> old(rows)[id].status.Queued? && t <= n
      ensures claimed <==> Claimable(old(rows), id, now)
      ensures rows == if claimed then old(rows)[id := Claimed(old(rows)[id], now, expires, token)] else old(rows)
      ensures claimed ==> Owns(rows, id, token)
    {
      claimed := Claimable(rows, id, now);
      forall t: Instant, n: Instant | id in rows && rows[id].runAt == Some(Iso(t)) && now == Iso(n)
        ensures claimed <==> rows[id].status.Queued? && t <= n
      {
        DueAndStaleInInstants(rows[id], n);
      }
      if claimed {
        rows := rows[id := Claimed(rows[id], now, expires, token)];
      }
    }

    method Heartbeat(id: string, token: nat, now: string, expires: string) returns (kept: bool)
      modifies this
      ensures kept <==> Owns(old(rows), id, token)
      ensures rows == if kept then old(rows)[id := Extended(old(rows)[id], now, expires)] else old(rows)
    {
      kept := Owns(rows, id, token);
      if kept {
        rows := rows[id := Extended(rows[id], now, expires)];
      }
    }

    /** With a token the write lands only under the lease; without one it is unconditional. */
    method SetResult(id: string, result: Result, now: string, token: Option<nat>) returns (wrote: bool)
      modifies this
      ensures wrote <==> if token.Some? then Owns(old(rows), id, token.value) else id in old(rows)
      ensures rows == if wrote then old(rows)[id := Ended(old(rows)[id], result, now)] else old(rows)
    {
      wrote := if token.Some? then Owns(rows, id, token.value) else id in rows;
      if wrote {
        rows := rows[id := Ended(rows[id], result, now)];
      }
    }

    /**
     * `selected` is what the SELECT returned: at most `limit` distinct stale rows. The loop re-checks each
     * of them, and reports exactly those it put back on the queue.
     */
    method ReclaimStaleLeases(selected: seq<string>, now: string) returns (requeued: seq<string>)
      modifies this
      ensures rows == ReclaimEach(old(rows), selected, now)
      ensures forall id :: id in requeued <==> id in selected && id in old(rows) && Stale(old(rows)[id], now)
      ensures forall id | id in requeued :: id in rows && rows[id].status.Queued? && rows[id].leaseToken.None?
      // At instant `n` a PROCESSING job without an expiry is reclaimed, and one that has an expiry once it has passed.
      ensures forall id | id in selected && id in old(rows) && old(rows)[id].leaseExpiresAt.None? ::
                id in requeued <==> old(rows)[id].status.Processing?
      ensures forall id, t: Instant, n: Instant | id in selected && id in old(rows) && old(rows)[id].leaseExpiresAt == Some(Iso(t)) && now == Iso(n) ::
                id in requeued <==> old(rows)[id].status.Processing? && t < n
    {
      requeued := [];
      var i := 0;
      while i < |selected|
        invariant 0 <= i <= |selected|
        invariant rows == ReclaimEach(old(rows), selected[..i], now)
        invariant forall id :: id in requeued <==> id in selected[..i] && id in old(rows) && Stale(old(rows)[id], now)
      {
        var id := selected[i];
        assert selected[..i + 1] == selected[..i] + [id];
        ReclaimEachSnoc(old(rows), selected[..i], id, now);
        ReclaimEachMeaning(old(rows), selected[..i], now);
        if id in rows && Stale(rows[id], now) {
          rows := rows[id := Recovered(rows[id], now)];
          requeued := requeued + [id];
        }
        i := i + 1;
      }
      assert selected[..i] == selected;
      ReclaimEachMeaning(old(rows), selected, now);
      forall id, t: Instant, n: Instant | id in selected && id in old(rows) && old(rows)[id].leaseExpiresAt == Some(Iso(t)) && now == Iso(n)
        ensures Stale(old(rows)[id], now) <==> old(rows)[id].status.Processing? && t < n
      {
        DueAndStaleInInstants(old(rows)[id], n);
      }
    }

    method Requeue(id: string, allowed: set<Status>, now: string) returns (ok: bool)
      modifies this
      ensures ok <==> id in old(rows) && old(rows)[id].status in allowed
      ensures rows == if ok then old(rows)[id := Reset(old(rows)[id], now)] else old(rows)
    {
      ok := id in rows && rows[id].status in allowed;
      if ok {
        rows := rows[id := Reset(rows[id], now)];
      }
    }

    method UpdateStatus(id: string, status: Status, now: string)
      modifies this
      ensures rows == if id in old(rows) then old(rows)[id := old(rows)[id].(status := status, updatedAt := now)] else old(rows)
    {
      if id in rows {
        rows := rows[id := rows[id].(status := status, updatedAt := now)];
      }
    }

    method DeleteJob(id: string) returns (deleted: bool)
      modifies this
      ensures deleted <==> id in old(rows)
      ensures rows == old(rows) - {id}
    {
      deleted := id in rows;
      rows := rows - {id};
    }

    method MarkResultPublished(id: string)
      modifies this
      ensures rows == if id in old(rows) then old(rows)[id := old(rows)[id].(published := true)] else old(rows)
    {
      if id in rows {
        rows := rows[id := rows[id].(published := true)];
      }
    }
  }
}
