/** A batch stored among the steps of workers and other clients. */
module BatchInterleaved {
  import opened BatchStore
  import opened BatchSubmit
  import opened Dependencies
  import opened ExecutionOrder
  import opened Graphs
  import opened Jobs
  import opened Leases

  /** What `uuid4` gives: an id that no stored job mentions when it is first used, nor the new job itself. */
  ghost predicate FreshId(rows: Rows, id: string, row: Row) {
    id !in Targets(row.request.dependsOn) && forall j | j in rows :: id !in Targets(rows[j].request.dependsOn)
  }

  ghost predicate FreshIds(h: Log) {
    forall k | 0 <= k < |h| && h[k].event.Enqueue? :: FreshId(Before(h, k), h[k].event.id, h[k].event.row)
  }

  lemma OtherStepsAddNoEdges(rows: Rows, e: Event)
    requires !e.Enqueue?
    ensures forall x, y | Edge(DependencyGraph(Step(rows, e)), x, y) :: Edge(DependencyGraph(rows), x, y)
  {
  }

  lemma StepKeepsAcyclic(rows: Rows, e: Event)
    requires Acyclic(DependencyGraph(rows)) && (e.Enqueue? ==> FreshId(rows, e.id, e.row))
    ensures Acyclic(DependencyGraph(Step(rows, e)))
  {
    if e.Enqueue? {
      if Succeeds(rows, e) { AddRowKeepsAcyclic(rows, e.id, e.row); }
    } else {
      OtherStepsAddNoEdges(rows, e);
      var g, h := DependencyGraph(Step(rows, e)), DependencyGraph(rows);
      forall a ensures !OnCycle(g, a) {
        if OnCycle(g, a) { CycleInLarger(g, h, a); }
      }
    }
  }

  lemma NothingIsAcyclic()
    ensures Acyclic(DependencyGraph(map[]))
  {
    var g := DependencyGraph(map[]);
    forall a ensures !OnCycle(g, a) {
      if OnCycle(g, a) { var b := CycleGoesThroughAnEdge(g, a); }
    }
  }

  /** However clients and workers interleave, dependencies never form a cycle while new jobs have new ids. */
  lemma {:induction false} RunIsAcyclic(h: Log, n: nat)
    requires IsRun(h) && FreshIds(h) && n <= |h|
    ensures Acyclic(DependencyGraph(Before(h, n)))
  {
    if n == 0 {
      NothingIsAcyclic();
    } else {
      RunIsAcyclic(h, n - 1);
      assert Follows(h, n - 1);
      StepKeepsAcyclic(Before(h, n - 1), h[n - 1].event);
    }
  }

  /** The first items of the plan are stored at the steps `at`, in order, all after step `m`. */
  ghost predicate StoredAt(h: Log, m: nat, p: Plan, now: string, at: seq<nat>)
    requires p.Planned? && forall n | n in p.order :: n in p.specs && n in p.resolved && n in p.ids
  {
    && |at| <= |p.order|
    && forall k | 0 <= k < |at| :: m <= at[k] < |h| && h[at[k]].ok && h[at[k]].event == Enqueue(PlanIds(p)[k], PlanRows(p, now)[k])
  }

  lemma StoredIsThere(h: Log, m: nat, p: Plan, now: string, at: seq<nat>, n: nat, k: nat)
    requires p.Planned? && forall x | x in p.order :: x in p.specs && x in p.resolved && x in p.ids
    requires IsRun(h) && StoredAt(h, m, p, now, at) && k < |at| && at[k] < n <= |h| && NotDeleted(h, m, n, PlanIds(p)[k])
    ensures PlanIds(p)[k] in Before(h, n) && Before(h, n)[PlanIds(p)[k]].request == PlanRows(p, now)[k].request
  {
    assert Follows(h, at[k]);
    RequestIsFixed(h, at[k] + 1, n, PlanIds(p)[k]);
  }

  lemma TargetIsThere(h: Log, m: nat, newIds: seq<string>, p: Plan, now: string, at: seq<nat>, n: nat, i: nat, d: string)
    requires IsRun(h) && m <= n <= |h| && Usable(Before(h, m), newIds, p) && ExternalsExist(Before(h, m), p)
    requires StoredAt(h, m, p, now, at) && i < |at| && forall k | 0 <= k <= i :: at[k] < n
    requires d in Targets(PlanRows(p, now)[i].request.dependsOn) && NotDeleted(h, m, n, d)
    ensures d in Before(h, n)
  {
    TargetsAreEarlier(Before(h, m), newIds, p, i, d);
    if d in Before(h, m) {
      RequestIsFixed(h, m, n, d);
    } else {
      var k :| 0 <= k < i && PlanIds(p)[..i][k] == d;
      StoredIsThere(h, m, p, now, at, n, k);
    }
  }

  /**
   * The batch among others. Its jobs may be claimed, finished, cancelled and requeued while the rest of it is
   * still being stored, and other jobs may be submitted: as long as nothing that item `i` needs is deleted, its
   * job is told neither of a cycle nor of a missing dependency.
   */
  lemma BatchStaysWellPlaced(h: Log, m: nat, newIds: seq<string>, p: Plan, now: string, at: seq<nat>, n: nat, i: nat)
    requires IsRun(h) && FreshIds(h) && m <= n <= |h|
    requires Usable(Before(h, m), newIds, p) && ExternalsExist(Before(h, m), p)
    requires StoredAt(h, m, p, now, at) && i < |at| && forall k | 0 <= k <= i :: at[k] < n
    requires NotDeleted(h, m, n, PlanIds(p)[i])
    requires forall d | d in Targets(PlanRows(p, now)[i].request.dependsOn) :: NotDeleted(h, m, n, d)
    ensures WellPlaced(Before(h, n), PlanIds(p)[i])
  {
    var table, id := Before(h, n), PlanIds(p)[i];
    RunIsAcyclic(h, n);
    StoredIsThere(h, m, p, now, at, n, i);
    forall d | d in Targets(table[id].request.dependsOn) ensures d in table {
      TargetIsThere(h, m, newIds, p, now, at, n, i, d);
    }
    NoCycleNoMissing(table, id);
  }
}
