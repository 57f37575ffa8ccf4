/** `remove(cancel=True)` of several jobs in turn: which rows that leaves untouched. */
module Removal {
  import opened Cascade
  import opened CascadeTermination
  import opened Dependencies
  import opened Graphs
  import opened Jobs

  /** Cancel with the cascade, then delete the row; nothing when the cascade does not return. */
  function Removed(rows: Rows, order: seq<string>, due: set<string>, id: string, depth: nat): Option<Rows> {
    var out := Cancel(rows, order, due, id, depth);
    if out.Finished? then Some(out.rows - {id}) else None
  }

  function RemovedAll(rows: Rows, order: seq<string>, due: set<string>, ids: seq<string>, depth: nat): Option<Rows> {
    if ids == [] then Some(rows)
    else
      var before := RemovedAll(rows, order, due, ids[..|ids| - 1], depth);
      if before.None? then None else Removed(before.value, order, due, ids[|ids| - 1], depth)
  }

  /** Removing `id` takes `x` itself away, or its cascade ends it. */
  ghost predicate Hits(rows: Rows, due: set<string>, id: string, x: string) {
    || x == id
    || (Live(rows, id) && x in rows && Below(rows, id, x) && (rows[x].status.Processing? || x in due))
  }

  predicate Untouched(rows: Rows, after: Rows, x: string)
    requires x in rows
  {
    x in after && after[x] == rows[x]
  }

  /** Rows go or end; what stays keeps its request. */
  predicate Dwindles(rows: Rows, after: Rows) {
    forall x | x in after ::
      x in rows && after[x].request == rows[x].request && (after[x] == rows[x] || (Live(rows, x) && !Live(after, x)))
  }

  lemma RemovedTouchesHit(rows: Rows, order: seq<string>, due: set<string>, id: string, depth: nat)
    requires AllListed(rows, order) && Removed(rows, order, due, id, depth).Some?
    ensures var after := Removed(rows, order, due, id, depth).value;
            Dwindles(rows, after) && forall x | x in rows :: Untouched(rows, after, x) <==> !Hits(rows, due, id, x)
  {
    if Live(rows, id) { CancelSettlesExactlyBelow(rows, order, due, id, depth); }
  }

  /** The removal of `ids[i]`, on the table as the removals before it have left it, hits `x`. */
  ghost predicate HitsAt(rows: Rows, order: seq<string>, due: set<string>, ids: seq<string>, depth: nat, i: nat, x: string)
    requires i < |ids|
  {
    var before := RemovedAll(rows, order, due, ids[..i], depth);
    before.Some? && Hits(before.value, due, ids[i], x)
  }

  lemma OneMoreRemoval(rows: Rows, before: Rows, after: Rows, x: string, hit: bool)
    requires Dwindles(rows, before) && Dwindles(before, after) && x in rows
    requires x in before ==> (Untouched(before, after, x) <==> !hit)
    ensures Dwindles(rows, after)
    ensures Untouched(rows, after, x) <==> Untouched(rows, before, x) && !hit
  {
  }

  lemma SameHits(rows: Rows, order: seq<string>, due: set<string>, ids: seq<string>, depth: nat, n: nat, x: string)
    requires n <= |ids|
    ensures forall i | 0 <= i < n :: HitsAt(rows, order, due, ids[..n], depth, i, x) <==> HitsAt(rows, order, due, ids, depth, i, x)
  {
    forall i | 0 <= i < n
      ensures HitsAt(rows, order, due, ids[..n], depth, i, x) <==> HitsAt(rows, order, due, ids, depth, i, x)
    {
      assert ids[..n][..i] == ids[..i];
    }
  }

  /** A row survives a series of removals as it was exactly when none of them, in its turn, hits it. */
  lemma {:induction false} RemovalsTouchHit(rows: Rows, order: seq<string>, due: set<string>, ids: seq<string>, depth: nat, x: string)
    requires AllListed(rows, order) && RemovedAll(rows, order, due, ids, depth).Some? && x in rows
    ensures Dwindles(rows, RemovedAll(rows, order, due, ids, depth).value)
    ensures Untouched(rows, RemovedAll(rows, order, due, ids, depth).value, x) <==>
            forall i | 0 <= i < |ids| :: !HitsAt(rows, order, due, ids, depth, i, x)
    decreases |ids|
  {
    if ids != [] {
      var n, first := |ids| - 1, ids[..|ids| - 1];
      RemovalsTouchHit(rows, order, due, first, depth, x);
      SameHits(rows, order, due, ids, depth, n, x);
      var before := RemovedAll(rows, order, due, first, depth).value;
      RemovedTouchesHit(before, order, due, ids[n], depth);
      OneMoreRemoval(rows, before, RemovedAll(rows, order, due, ids, depth).value, x, HitsAt(rows, order, due, ids, depth, n, x));
    }
  }

  /** The rows that go are those that were to be removed. */
  lemma {:induction false} RemovalsTakeIds(rows: Rows, order: seq<string>, due: set<string>, ids: seq<string>, depth: nat)
    requires AllListed(rows, order) && RemovedAll(rows, order, due, ids, depth).Some?
    ensures RemovedAll(rows, order, due, ids, depth).value.Keys == rows.Keys - Elements(ids)
    decreases |ids|
  {
    if ids != [] {
      var first, last := ids[..|ids| - 1], ids[|ids| - 1];
      RemovalsTakeIds(rows, order, due, first, depth);
      assert ids == first + [last];
      assert Elements(ids) == Elements(first) + {last};
      var before := RemovedAll(rows, order, due, first, depth).value;
      if Live(before, last) { CancelSettlesExactlyBelow(before, order, due, last, depth); }
    }
  }

  /** Rows that mention no new id are out of reach of the cascade of a new job. */
  lemma NewHitsNothingOld(rows0: Rows, rows: Rows, due: set<string>, id: string, x: string)
    requires id !in rows0 && x in rows0
    requires forall j | j in rows0 && j in rows :: rows[j].request == rows0[j].request
    requires forall j, f | j in rows0 && f in rows && f !in rows0 :: f !in rows0[j].request.dependsOn
    ensures !Hits(rows, due, id, x)
  {
    if Live(rows, id) && x in rows && Below(rows, id, x) {
      var g := LiveGraph(Struck(rows, id));
      var p :| Connects(g, p, id, x);
      ClosedUnderPath(g, (iset y | y in rows && y !in rows0), p);
      assert false;
    }
  }

  lemma {:induction false} RemovalsStop(rows: Rows, order: seq<string>, due: set<string>, ids: seq<string>, depth: nat, n: nat)
    requires n <= |ids| && RemovedAll(rows, order, due, ids[..n], depth).None?
    ensures RemovedAll(rows, order, due, ids, depth).None?
    decreases |ids|
  {
    if n == |ids| {
      assert ids[..n] == ids;
    } else {
      assert ids[..|ids| - 1][..n] == ids[..n];
      RemovalsStop(rows, order, due, ids[..|ids| - 1], depth, n);
    }
  }

  // Enough depth.

  lemma {:induction false} RemovedDeeper(rows: Rows, order: seq<string>, due: set<string>, ids: seq<string>, depth: nat, more: nat)
    requires depth <= more && RemovedAll(rows, order, due, ids, depth).Some?
    ensures RemovedAll(rows, order, due, ids, more) == RemovedAll(rows, order, due, ids, depth)
    decreases |ids|
  {
    if ids != [] {
      var id := ids[|ids| - 1];
      RemovedDeeper(rows, order, due, ids[..|ids| - 1], depth, more);
      var before := RemovedAll(rows, order, due, ids[..|ids| - 1], depth).value;
      if Live(before, id) { DependentsDeeper(Struck(before, id), order, due, id, depth, more); }
    }
  }
}
