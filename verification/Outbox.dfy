/** The transactional outbox: a result is marked published only after the broker has it, and is listed until then. */
module Outbox {
  import opened Jobs
  import opened JobTable
  import opened Text

  /** What `list_unpublished_terminal` selects. */
  predicate Listed(rows: Rows, id: string) {
    id in rows && rows[id].status.Terminal() && rows[id].result.Some? && !rows[id].published && rows[id].correlationId.Some?
  }

  function Backlog(rows: Rows): set<string> {
    set id | id in rows && Listed(rows, id)
  }

  function Marked(rows: Rows, id: string): Rows {
    if id in rows then rows[id := rows[id].(published := true)] else rows
  }

  lemma MarkedBacklog(rows: Rows, id: string)
    ensures Backlog(Marked(rows, id)) == Backlog(rows) - {id}
  {
    forall other ensures other in Backlog(Marked(rows, id)) <==> other in Backlog(rows) - {id} {}
  }

  // Draining the backlog.

  /** How one publish goes: through, or with an exception from either call, before or after its effect. */
  datatype Attempt = Delivered | ProduceRaises(reached: bool) | MarkRaises(done: bool)

  /** Every attempt from number `from` up to `to` got through. */
  ghost predicate Flawless(broker: nat -> Attempt, from: nat, to: nat) {
    forall n: nat | from <= n < to :: broker(n).Delivered?
  }

  /** Rows only ever gain a mark, and only once the broker has their result. */
  ghost predicate OnlyMarks(before: Rows, rows: Rows, accepted: set<(string, Result)>) {
    && rows.Keys == before.Keys
    && forall id | id in rows ::
         rows[id] == before[id] ||
         (&& rows[id] == before[id].(published := true)
          && Listed(before, id)
          && (rows[id].request.bridgeCorrelation.Some? ==> (id, rows[id].result.value) in accepted))
  }

  lemma OneMoreMark(before: Rows, rows: Rows, accepted: set<(string, Result)>, id: string, marked: bool, more: set<(string, Result)>)
    requires OnlyMarks(before, rows, accepted) && accepted <= more && id in Backlog(rows)
    requires marked && rows[id].request.bridgeCorrelation.Some? ==> (id, rows[id].result.value) in more
    ensures var next := if marked then Marked(rows, id) else rows;
            OnlyMarks(before, next, more) && |Backlog(next)| + (if marked then 1 else 0) == |Backlog(rows)|
  {
    MarkedBacklog(rows, id);
  }

  class Publisher {
    const store: SQLiteJobStore
    /** The results the broker has accepted. */
    var accepted: set<(string, Result)>
    var attempts: nat

    constructor (store: SQLiteJobStore)
      ensures this.store == store && accepted == {} && attempts == 0
    {
      this.store, accepted, attempts := store, {}, 0;
    }

    method Earliest(among: set<string>) returns (first: string)
      requires among != {} && among <= store.rows.Keys
      ensures first in among && forall id | id in among :: StrLe(store.rows[first].updatedAt, store.rows[id].updatedAt)
    {
      var rows := store.rows;
      first :| first in among;
      StrLeTotal(rows[first].updatedAt, rows[first].updatedAt);
      var left := among - {first};
      while left != {}
        invariant left <= among && first in among
        invariant forall id | id in among && id !in left :: StrLe(rows[first].updatedAt, rows[id].updatedAt)
      {
        var id :| id in left;
        StrLeTotal(rows[first].updatedAt, rows[id].updatedAt);
        if !StrLe(rows[first].updatedAt, rows[id].updatedAt) {
          forall other | other in among && other !in left ensures StrLe(rows[id].updatedAt, rows[other].updatedAt) {
            StrLeTransitive(rows[id].updatedAt, rows[first].updatedAt, rows[other].updatedAt);
          }
          StrLeTotal(rows[id].updatedAt, rows[id].updatedAt);
          first := id;
        }
        left := left - {id};
      }
    }

    /** The oldest unpublished results, at most `limit` of them; a negative limit is none, as in SQLite. */
    method ListUnpublishedTerminal(limit: int) returns (ids: seq<string>)
      ensures forall i, j | 0 <= i < j < |ids| :: ids[i] != ids[j]
      ensures forall id | id in ids :: id in Backlog(store.rows)
      ensures |ids| == if 0 <= limit < |Backlog(store.rows)| then limit else |Backlog(store.rows)|
      ensures forall a, b | a in ids && b in Backlog(store.rows) && b !in ids :: StrLe(store.rows[a].updatedAt, store.rows[b].updatedAt)
    {
      var left := Backlog(store.rows);
      ids := [];
      while left != {} && (limit < 0 || |ids| < limit)
        invariant left <= Backlog(store.rows) && (0 <= limit ==> |ids| <= limit)
        invariant |ids| + |left| == |Backlog(store.rows)|
        invariant forall i, j | 0 <= i < j < |ids| :: ids[i] != ids[j]
        invariant forall id :: id in ids <==> id in Backlog(store.rows) && id !in left
        invariant forall a, b | a in ids && b in left :: StrLe(store.rows[a].updatedAt, store.rows[b].updatedAt)
        decreases |left|
      {
        var id := Earliest(left);
        ids := ids + [id];
        left := left - {id};
      }
    }

    /** Produce, and mark only when the broker has confirmed. */
    method PublishNow(id: string, result: Result, a: Attempt) returns (ok: bool)
      modifies this, store
      ensures ok == a.Delivered? && attempts == old(attempts) + 1
      ensures accepted == if a == ProduceRaises(false) then old(accepted) else old(accepted) + {(id, result)}
      ensures store.rows == if a.Delivered? || a == MarkRaises(true) then Marked(old(store.rows), id) else old(store.rows)
    {
      attempts := attempts + 1;
      if a != ProduceRaises(false) {
        accepted := accepted + {(id, result)};
      }
      if a.ProduceRaises? {
        return false;
      }
      if a == MarkRaises(false) {
        return false;
      }
      store.MarkResultPublished(id);
      return a.Delivered?;
    }

    /**
     * A row that is not the bridge's is only marked, so that it is not scanned again. There the mark is not
     * guarded: if it raises, the exception leaves the recovery.
     */
    method RepublishRow(id: string, a: Attempt) returns (sent: bool, gone: bool, raised: bool, ghost marked: bool)
      requires id in Backlog(store.rows)
      modifies this, store
      ensures old(accepted) <= accepted && attempts == old(attempts) + 1 && (sent ==> gone) && (gone ==> marked)
      ensures old(store.rows)[id].request.bridgeCorrelation.Some? ==>
                && sent == gone == a.Delivered? && marked == (a.Delivered? || a == MarkRaises(true))
                && accepted == if a == ProduceRaises(false) then old(accepted) else old(accepted) + {(id, old(store.rows)[id].result.value)}
      ensures old(store.rows)[id].request.bridgeCorrelation.None? ==>
                !sent && gone == !a.MarkRaises? && marked == (a != MarkRaises(false)) && accepted == old(accepted)
      ensures store.rows == if marked then Marked(old(store.rows), id) else old(store.rows)
      ensures marked && store.rows[id].request.bridgeCorrelation.Some? ==> (id, store.rows[id].result.value) in accepted
      ensures raised <==> old(store.rows)[id].request.bridgeCorrelation.None? && a.MarkRaises?
      ensures a.Delivered? ==> gone
    {
      var row := store.rows[id];
      if row.request.bridgeCorrelation.None? {
        attempts := attempts + 1;
        if a == MarkRaises(false) {
          return false, false, true, false;
        }
        store.MarkResultPublished(id);
        return false, !a.MarkRaises?, a.MarkRaises?, true;
      }
      sent := PublishNow(id, row.result.value, a);
      gone, raised, marked := sent, false, a.Delivered? || a == MarkRaises(true);
    }

    /** One pass over a listing. */
    method RepublishRows(ids: seq<string>, broker: nat -> Attempt) returns (emitted: nat, removed: nat, raised: bool)
      requires forall i, j | 0 <= i < j < |ids| :: ids[i] != ids[j]
      requires forall id | id in ids :: id in Backlog(store.rows)
      modifies this, store
      ensures OnlyMarks(old(store.rows), store.rows, accepted) && old(accepted) <= accepted && old(attempts) <= attempts
      ensures emitted <= removed <= |ids|
      ensures |Backlog(store.rows)| + removed <= |Backlog(old(store.rows))|
      ensures raised ==> exists id :: id in ids && old(store.rows)[id].request.bridgeCorrelation.None?
      ensures Flawless(broker, old(attempts), attempts) ==> removed == |ids| && !raised
    {
      emitted, removed, raised := 0, 0, false;
      var i := 0;
      while i < |ids| && !raised
        invariant 0 <= i <= |ids| && emitted <= removed <= i && old(accepted) <= accepted && old(attempts) <= attempts
        invariant OnlyMarks(old(store.rows), store.rows, accepted)
        invariant |Backlog(store.rows)| + removed <= |Backlog(old(store.rows))|
        invariant forall j | i <= j < |ids| :: ids[j] in Backlog(store.rows)
        invariant raised ==> exists id :: id in ids && old(store.rows)[id].request.bridgeCorrelation.None?
        invariant Flawless(broker, old(attempts), attempts) ==> removed == i && !raised
      {
        ghost var before, rows, known := attempts, store.rows, accepted;
        MarkedBacklog(rows, ids[i]);
        var sent, gone;
        ghost var marked;
        sent, gone, raised, marked := RepublishRow(ids[i], broker(attempts));
        OneMoreMark(old(store.rows), rows, known, ids[i], marked, accepted);
        assert Flawless(broker, old(attempts), attempts) ==> broker(before).Delivered? && Flawless(broker, old(attempts), before);
        emitted := emitted + if sent then 1 else 0;
        removed := removed + if gone then 1 else 0;
        i := i + 1;
      }
    }

    /**
     * Startup recovery ends for every batch size and however the broker behaves; when nothing fails it leaves
     * no backlog. It stops early only for a pass that got nothing through, after a short batch, or when the
     * mark of a row that is not the bridge's raises.
     */
    method RepublishUnpublished(batch: int, broker: nat -> Attempt) returns (total: nat, raised: bool)
      modifies this, store
      ensures OnlyMarks(old(store.rows), store.rows, accepted) && old(accepted) <= accepted && old(attempts) <= attempts
      ensures raised ==> exists id :: id in Backlog(old(store.rows)) && old(store.rows)[id].request.bridgeCorrelation.None?
      ensures batch != 0 && Flawless(broker, old(attempts), attempts) ==> !raised && Backlog(store.rows) == {}
      ensures |Backlog(store.rows)| + total <= |Backlog(old(store.rows))|
    {
      total, raised := 0, false;
      while true
        invariant OnlyMarks(old(store.rows), store.rows, accepted) && !raised
        invariant old(accepted) <= accepted && old(attempts) <= attempts
        invariant |Backlog(store.rows)| + total <= |Backlog(old(store.rows))|
        decreases |Backlog(store.rows)|
      {
        var ids := ListUnpublishedTerminal(batch);
        if ids == [] {
          break;
        }
        ghost var before := store.rows;
        var emitted, removed;
        emitted, removed, raised := RepublishRows(ids, broker);
        total := total + emitted;
        if raised {
          ghost var id :| id in ids && before[id].request.bridgeCorrelation.None?;
          assert id in Backlog(old(store.rows));
          break;
        }
        if removed == 0 || |ids| < batch {
          break;
        }
      }
    }
  }
}
