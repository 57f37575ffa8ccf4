/** Storing a planned batch, and taking it back when an item fails. */
module BatchStore {
  import opened BatchSubmit
  import opened Cascade
  import opened CascadeTermination
  import opened Dependencies
  import opened Graphs
  import opened Jobs
  import JobTable
  import opened Removal
  import opened Text
  import opened Topology

  function NewRow(p: Plan, n: string, now: string): Row
    requires p.Planned? && n in p.specs && n in p.resolved
  {
    JobTable.Fresh(p.specs[n].request.(dependsOn := p.resolved[n]), p.specs[n].runAt, now, None, p.specs[n].key)
  }

  /** The table after the first `k` of the new rows. */
  function Stored(rows: Rows, ids: seq<string>, added: seq<Row>, k: nat): Rows
    requires k <= |ids| && k <= |added|
  {
    if k == 0 then rows else Stored(rows, ids, added, k - 1)[ids[k - 1] := added[k - 1]]
  }

  /** The parts of a sound plan that storing relies on. */
  ghost predicate Usable(rows0: Rows, newIds: seq<string>, p: Plan) {
    && p.Planned?
    && (forall n | n in p.order :: n in p.specs && n in p.resolved && n in p.ids && n in p.deps)
    && Injective(p.ids) && Distinct(p.order) && Unused(rows0, newIds)
    && (forall n | n in p.ids :: p.ids[n] in newIds)
    && (forall i, d | 0 <= i < |p.order| && d in p.deps[p.order[i]] && d in p.ids :: d in p.order[..i])
    && (forall n | n in p.order :: Normal(p.deps[n]) && p.resolved[n] == Resolve(p.deps[n], p.ids))
  }

  lemma {:induction false} LocalKeeps(entries: seq<string>, names: set<string>, d: string)
    requires Normal(entries) && d in entries && d in names
    ensures d in Local(entries, names)
  {
    var last := entries[|entries| - 1];
    StripProjects(last);
    assert entries == entries[..|entries| - 1] + [last];
    if d != last { LocalKeeps(entries[..|entries| - 1], names, d); }
  }

  lemma SoundIsUsable(rows0: Rows, items: seq<Item>, newIds: seq<string>, p: Plan)
    requires p.Planned? && Sound(items, newIds, p) && Unused(rows0, newIds)
    ensures Usable(rows0, newIds, p)
  {
    forall n | n in p.order ensures n in p.names { assert n in Elements(p.order); }
    forall n | n in p.order ensures Normal(p.deps[n]) {
      var k :| 0 <= k < |p.names| && p.names[k] == n;
      NormalLists(items, k);
    }
    forall i, d | 0 <= i < |p.order| && d in p.deps[p.order[i]] && d in p.ids ensures d in p.order[..i] {
      DependencyComesFirst(p, i, d);
    }
  }

  lemma NormalLists(items: seq<Item>, k: nat)
    requires k < |items|
    ensures Normal(ItemDeps(items)[k])
  {
    match items[k].dependsOn
    case Absent =>
    case Commas(text) => CleanedIsNormal(SplitCommas(text, ""));
    case Entries(entries) => CleanedIsNormal(entries);
  }

  lemma DependencyComesFirst(p: Plan, i: nat, d: string)
    requires p.Planned? && i < |p.order| && Distinct(p.order) && Elements(p.order) == Elements(p.names)
    requires p.order[i] in p.deps && Normal(p.deps[p.order[i]]) && d in p.deps[p.order[i]] && d in p.names
    requires TargetsFirst(BatchGraph(p.names, p.deps), p.order)
    ensures d in p.order[..i]
  {
    var n, names := p.order[i], Elements(p.names);
    assert n in Elements(p.order);
    LocalKeeps(p.deps[n], names, d);
    assert Edge(BatchGraph(p.names, p.deps), n, d);
    var a, b :| 0 <= a < b < |p.order| && p.order[a] == d && p.order[b] == n;
    assert p.order[..i][a] == d;
  }

  /** The job ids of the plan in storing order, and the row that goes under each of them. */
  function PlanIds(p: Plan): seq<string>
    requires p.Planned? && forall n | n in p.order :: n in p.ids
  {
    seq(|p.order|, i requires 0 <= i < |p.order| => p.ids[p.order[i]])
  }

  function PlanRows(p: Plan, now: string): seq<Row>
    requires p.Planned? && forall n | n in p.order :: n in p.specs && n in p.resolved
  {
    seq(|p.order|, i requires 0 <= i < |p.order| => NewRow(p, p.order[i], now))
  }

  /** New rows under new ids, each pointing only to stored rows and to new rows before it. */
  ghost predicate Layered(rows: Rows, ids: seq<string>, added: seq<Row>) {
    && |ids| == |added| && Distinct(ids)
    && (forall i | 0 <= i < |ids| :: ids[i] !in rows)
    && (forall j, d | j in rows && d in Targets(rows[j].request.dependsOn) :: d !in ids)
    && (forall i, d | 0 <= i < |ids| && d in Targets(added[i].request.dependsOn) :: d in rows || d in ids[..i])
  }

  lemma PlanIsLayered(rows: Rows, newIds: seq<string>, p: Plan, now: string)
    requires Usable(rows, newIds, p) && ExternalsExist(rows, p) && NormalRows(rows)
    ensures Layered(rows, PlanIds(p), PlanRows(p, now))
  {
    var ids, added := PlanIds(p), PlanRows(p, now);
    forall i, j | 0 <= i < j < |ids| ensures ids[i] != ids[j] { assert p.order[i] != p.order[j]; }
    forall j, d | j in rows && d in Targets(rows[j].request.dependsOn) ensures d !in ids {
      NormalIsCleaned(rows[j].request.dependsOn);
    }
    forall i, x | 0 <= i < |ids| && x in Targets(added[i].request.dependsOn) ensures x in rows || x in ids[..i] {
      TargetsAreEarlier(rows, newIds, p, i, x);
    }
  }

  lemma TargetsAreEarlier(rows: Rows, newIds: seq<string>, p: Plan, i: nat, x: string)
    requires Usable(rows, newIds, p) && ExternalsExist(rows, p) && i < |p.order|
    requires x in Targets(p.resolved[p.order[i]])
    ensures x in rows || x in PlanIds(p)[..i]
  {
    var n := p.order[i];
    ResolvedIsNormal(rows, newIds, p.deps[n], p.ids);
    NormalIsCleaned(p.resolved[n]);
    var d :| d in p.deps[n] && x == if d in p.ids then p.ids[d] else d;
    if d in p.ids { EarlierHasId(p, i, d); }
  }

  lemma EarlierHasId(p: Plan, i: nat, d: string)
    requires p.Planned? && i <= |p.order| && d in p.order[..i] && forall n | n in p.order :: n in p.ids
    ensures p.ids[d] in PlanIds(p)[..i]
  {
    var k :| 0 <= k < i && p.order[..i][k] == d;
    assert PlanIds(p)[..i][k] == p.ids[d];
  }

  lemma ResolvedIsNormal(rows: Rows, newIds: seq<string>, deps: seq<string>, ids: map<string, string>)
    requires Normal(deps) && Unused(rows, newIds) && forall n | n in ids :: ids[n] in newIds
    ensures Normal(Resolve(deps, ids))
  {
  }

  lemma {:induction false} StoredMeaning(rows: Rows, ids: seq<string>, added: seq<Row>, k: nat)
    requires |ids| == |added| && Distinct(ids) && k <= |ids| && forall i | 0 <= i < |ids| :: ids[i] !in rows
    ensures forall j :: j in Stored(rows, ids, added, k) <==> j in rows || j in ids[..k]
    ensures forall j | j in rows :: Stored(rows, ids, added, k)[j] == rows[j]
    ensures forall i | 0 <= i < k :: ids[i] in ids[..k] && Stored(rows, ids, added, k)[ids[i]] == added[i]
  {
    if k > 0 {
      StoredMeaning(rows, ids, added, k - 1);
      assert ids[..k] == ids[..k - 1] + [ids[k - 1]];
    }
  }

  ghost predicate StoredAcyclic(rows: Rows, ids: seq<string>, added: seq<Row>, k: nat)
    requires k <= |ids| && k <= |added|
  {
    Acyclic(DependencyGraph(Stored(rows, ids, added, k)))
  }

  lemma NextKeepsAcyclic(rows: Rows, ids: seq<string>, added: seq<Row>, k: nat)
    requires Layered(rows, ids, added) && k < |ids| && StoredAcyclic(rows, ids, added, k)
    ensures StoredAcyclic(rows, ids, added, k + 1)
  {
    NextIsUnmentioned(rows, ids, added, k);
    AddRowKeepsAcyclic(Stored(rows, ids, added, k), ids[k], added[k]);
  }

  /** At every point of the storing loop the dependency graph is acyclic. */
  lemma {:induction false} StoredIsAcyclic(rows: Rows, ids: seq<string>, added: seq<Row>, k: nat)
    requires Layered(rows, ids, added) && Acyclic(DependencyGraph(rows)) && k <= |ids|
    ensures StoredAcyclic(rows, ids, added, k)
  {
    if k > 0 {
      StoredIsAcyclic(rows, ids, added, k - 1);
      NextKeepsAcyclic(rows, ids, added, k - 1);
    }
  }

  /** Nothing points to the next new row, and everything it points to is stored. */
  lemma NextIsUnmentioned(rows: Rows, ids: seq<string>, added: seq<Row>, k: nat)
    requires Layered(rows, ids, added) && k < |ids|
    ensures ids[k] !in Stored(rows, ids, added, k)
    ensures forall j | j in Stored(rows, ids, added, k) :: ids[k] !in Targets(Stored(rows, ids, added, k)[j].request.dependsOn)
    ensures forall d | d in Targets(added[k].request.dependsOn) :: d in Stored(rows, ids, added, k)
  {
    StoredMeaning(rows, ids, added, k);
    var before, id := Stored(rows, ids, added, k), ids[k];
    assert forall i | 0 <= i < k :: ids[..k][i] != id;
    forall j | j in before ensures id !in Targets(before[j].request.dependsOn) {
      assert id in ids;
      if j !in rows {
        var i :| 0 <= i < k && ids[..k][i] == j;
        assert ids[i + 1..][k - 1 - i] == id;
        NewRowPointsBack(rows, ids, added, i, id);
      }
    }
  }

  lemma NewRowPointsBack(rows: Rows, ids: seq<string>, added: seq<Row>, i: nat, id: string)
    requires Layered(rows, ids, added) && i < |ids| && id in ids[i + 1..]
    ensures id !in Targets(added[i].request.dependsOn)
  {
    var k :| 0 <= k < |ids[i + 1..]| && ids[i + 1..][k] == id;
    assert ids[i + 1 + k] == id;
    assert forall m | 0 <= m < i :: ids[..i][m] != id;
  }

  /** The job is stored, and its gate speaks neither of a cycle nor of a missing dependency. */
  ghost predicate WellPlaced(rows: Rows, id: string) {
    && id in rows
    && Gate(rows, rows[id].request.dependsOn, id) != Blocked(InCycle)
    && forall d :: Gate(rows, rows[id].request.dependsOn, id) != Blocked(NotFound(d))
  }

  /** After any number of stored items, no new job is told of a cycle or of a missing dependency. */
  lemma NewJobsAreWellPlaced(rows: Rows, ids: seq<string>, added: seq<Row>, k: nat, i: nat)
    requires Layered(rows, ids, added) && Acyclic(DependencyGraph(rows)) && i < k <= |ids|
    ensures WellPlaced(Stored(rows, ids, added, k), ids[i])
  {
    StoredMeaning(rows, ids, added, k);
    StoredIsAcyclic(rows, ids, added, k);
    var table := Stored(rows, ids, added, k);
    forall d | d in Targets(added[i].request.dependsOn) ensures d in table {
      if d !in rows {
        var m :| 0 <= m < i && ids[..i][m] == d;
        assert ids[..k][m] == d;
      }
    }
    NoCycleNoMissing(table, ids[i]);
  }

  /**
   * The main result about batches: whenever external dependencies exist, the dependency graph stays acyclic
   * after every stored item, and no job of the batch is ever failed for a cycle or a missing dependency.
   */
  lemma BatchKeepsGraphSound(rows: Rows, newIds: seq<string>, p: Plan, now: string, k: nat)
    requires Usable(rows, newIds, p) && ExternalsExist(rows, p) && NormalRows(rows) && Acyclic(DependencyGraph(rows))
    requires k <= |p.order|
    ensures Acyclic(DependencyGraph(Stored(rows, PlanIds(p), PlanRows(p, now), k)))
    ensures forall i | 0 <= i < k :: WellPlaced(Stored(rows, PlanIds(p), PlanRows(p, now), k), PlanIds(p)[i])
  {
    var ids, added := PlanIds(p), PlanRows(p, now);
    PlanIsLayered(rows, newIds, p, now);
    StoredIsAcyclic(rows, ids, added, k);
    forall i | 0 <= i < k ensures WellPlaced(Stored(rows, ids, added, k), ids[i]) {
      NewJobsAreWellPlaced(rows, ids, added, k, i);
    }
  }

  /** In an acyclic table every cascade returns, whatever is due. */
  lemma AcyclicCancelReturns(rows: Rows, order: seq<string>, due: set<string>, id: string) returns (depth: nat)
    requires AllListed(rows, order) && Live(rows, id) && NormalRows(rows) && Acyclic(DependencyGraph(rows))
    ensures Cancel(rows, order, due, id, depth).Finished?
  {
    var g := UndueGraph(Struck(rows, id), due);
    forall u ensures !OnCycle(g, u) {
      if OnCycle(g, u) {
        forall x, y | Edge(g, x, y) ensures Edge(DependencyGraph(rows), y, x) {
          NormalIsCleaned(rows[y].request.dependsOn);
        }
        CycleReversed(g, DependencyGraph(rows), u);
      }
    }
    CancelReturnsIff(rows, order, due, id);
    depth :| Cancel(rows, order, due, id, depth).Finished?;
  }

  /** `rows` is `rows0` with some further rows, whose ids no row of `rows0` mentions. */
  ghost predicate Extra(rows0: Rows, rows: Rows, ids: set<string>) {
    && (forall j | j in rows0 :: j in rows && rows[j] == rows0[j] && j !in ids)
    && (forall j | j in rows :: j in rows0 || j in ids)
    && (forall j, f | j in rows0 && f in ids :: f !in rows0[j].request.dependsOn)
  }

  /** Cancelling a new job never reaches the rows that were there before. */
  lemma CancelStaysInBatch(rows0: Rows, rows: Rows, ids: set<string>, order: seq<string>, due: set<string>, id: string, depth: nat)
    requires AllListed(rows, order) && Extra(rows0, rows, ids) && id in ids && Live(rows, id)
    requires Cancel(rows, order, due, id, depth).Finished?
    ensures Extra(rows0, Cancel(rows, order, due, id, depth).rows, ids)
    ensures Cancel(rows, order, due, id, depth).rows.Keys == rows.Keys
  {
    CancelSettlesExactlyBelow(rows, order, due, id, depth);
    var g := LiveGraph(Struck(rows, id));
    forall x | x in rows0 ensures !Below(rows, id, x) {
      if Below(rows, id, x) {
        var p :| Connects(g, p, id, x);
        ClosedUnderPath(g, (iset y | y in ids), p);
      }
    }
  }

  lemma RemovedIsExtra(rows0: Rows, rows: Rows, order: seq<string>, due: set<string>, id: string, ids: set<string>, depth: nat)
    requires AllListed(rows, order) && Extra(rows0, rows, {id} + ids) && id !in ids
    requires Removed(rows, order, due, id, depth).Some?
    ensures Extra(rows0, Removed(rows, order, due, id, depth).value, ids)
  {
    if Live(rows, id) { CancelStaysInBatch(rows0, rows, {id} + ids, order, due, id, depth); }
  }

  lemma DistinctInit(ids: seq<string>)
    requires Distinct(ids) && ids != []
    ensures var first, last := ids[..|ids| - 1], ids[|ids| - 1];
            Distinct(first) && last !in Elements(first) && Elements(ids) == Elements(first) + {last}
  {
    assert ids == ids[..|ids| - 1] + [ids[|ids| - 1]];
  }

  /** Removing new rows one after the other takes away those and nothing else. */
  lemma {:induction false} CleanRemovals(
      rows0: Rows, rows: Rows, order: seq<string>, due: set<string>, ids: seq<string>, rest: set<string>, depth: nat)
    requires AllListed(rows, order) && Distinct(ids) && Elements(ids) !! rest && Extra(rows0, rows, Elements(ids) + rest)
    requires RemovedAll(rows, order, due, ids, depth).Some?
    ensures AllListed(RemovedAll(rows, order, due, ids, depth).value, order)
    ensures Extra(rows0, RemovedAll(rows, order, due, ids, depth).value, rest)
    decreases |ids|
  {
    if ids == [] {
      assert Elements(ids) + rest == rest;
    } else {
      var first, last := ids[..|ids| - 1], ids[|ids| - 1];
      DistinctInit(ids);
      assert Elements(ids) + rest == Elements(first) + ({last} + rest);
      CleanRemovals(rows0, rows, order, due, first, {last} + rest, depth);
      var before := RemovedAll(rows, order, due, first, depth).value;
      RemovedTouchesHit(before, order, due, last, depth);
      RemovedIsExtra(rows0, before, order, due, last, rest, depth);
    }
  }

  lemma NothingExtra(rows0: Rows, rows: Rows)
    requires Extra(rows0, rows, {})
    ensures rows == rows0
  {
  }

  /** The first items of the plan are in the table, under their own ids. */
  ghost predicate StoredSoFar(rows0: Rows, p: Plan, now: string, enqueued: seq<string>, rows: Rows)
    requires p.Planned? && forall n | n in p.order :: n in p.specs && n in p.resolved && n in p.ids
  {
    && |enqueued| <= |p.order| && enqueued == PlanIds(p)[..|enqueued|]
    && rows == Stored(rows0, PlanIds(p), PlanRows(p, now), |enqueued|)
  }

  lemma OneMoreStored(rows0: Rows, p: Plan, now: string, enqueued: seq<string>, rows: Rows)
    requires p.Planned? && forall n | n in p.order :: n in p.specs && n in p.resolved && n in p.ids
    requires StoredSoFar(rows0, p, now, enqueued, rows) && |enqueued| < |p.order|
    ensures var n := p.order[|enqueued|];
            StoredSoFar(rows0, p, now, enqueued + [p.ids[n]], rows[p.ids[n] := NewRow(p, n, now)])
  {
    var ids, k := PlanIds(p), |enqueued|;
    assert ids[..k + 1] == ids[..k] + [ids[k]];
  }

  predicate KeyFree(rows: Rows, key: Option<string>) {
    key.Some? ==> forall j | j in rows :: rows[j].idempotencyKey != key
  }

  /** What is in the table when the storing stops, whatever keys are taken. */
  ghost predicate StoredUpTo(rows0: Rows, p: Plan, enqueued: seq<string>, rows: Rows)
    requires p.Planned? && forall n | n in p.order :: n in p.specs && n in p.resolved && n in p.ids
  {
    && |enqueued| <= |p.order|
    // The old rows are as they were, and what is new has a new id and a key of its own.
    && (forall j | j in rows0 :: j in rows && rows[j] == rows0[j])
    && (forall j | j in rows && j !in rows0 :: (exists n :: n in p.ids && p.ids[n] == j) && KeyFree(rows0, rows[j].idempotencyKey))
    // An item counts as the old row that has its key, if there is one.
    && forall i | 0 <= i < |enqueued| ::
         && enqueued[i] in rows
         && (enqueued[i] in rows0 <==> !KeyFree(rows0, p.specs[p.order[i]].key))
         && (enqueued[i] in rows0 ==> rows0[enqueued[i]].idempotencyKey == p.specs[p.order[i]].key)
  }

  lemma OneMoreUpTo(rows0: Rows, p: Plan, now: string, enqueued: seq<string>, rows: Rows, id: string, next: Rows)
    requires p.Planned? && forall n | n in p.order :: n in p.specs && n in p.resolved && n in p.ids
    requires StoredUpTo(rows0, p, enqueued, rows) && |enqueued| < |p.order|
    requires forall i | 0 <= i < |p.order| :: p.ids[p.order[i]] !in rows0
    requires SubmitsOne(p, p.order[|enqueued|], now, rows, id, next)
    ensures StoredUpTo(rows0, p, enqueued + [id], next)
  {
    var n := p.order[|enqueued|];
    if KeyFree(rows, p.specs[n].key) {
      assert KeyFree(rows0, p.specs[n].key);
      assert n in p.ids;
    }
    assert id in rows0 <==> !KeyFree(rows0, p.specs[n].key);
  }

  /** Accepted items so far, and both accounts of the table: one in general, one when no key is taken. */
  ghost predicate Storing(rows0: Rows, p: Plan, now: string, enqueued: seq<string>, rows: Rows)
    requires p.Planned? && forall n | n in p.order :: n in p.specs && n in p.resolved && n in p.ids
  {
    && StoredUpTo(rows0, p, enqueued, rows)
    && (forall i | 0 <= i < |enqueued| :: p.specs[p.order[i]].accepted)
    && (NoKeyReuse(rows0, p.specs) ==> StoredSoFar(rows0, p, now, enqueued, rows))
  }

  /** What `submit` of the item `n` does to the table. */
  ghost predicate SubmitsOne(p: Plan, n: string, now: string, rows: Rows, id: string, next: Rows)
    requires p.Planned? && n in p.specs && n in p.resolved && n in p.ids
  {
    if KeyFree(rows, p.specs[n].key) then id == p.ids[n] && next == rows[id := NewRow(p, n, now)]
    else next == rows && id in rows && rows[id].idempotencyKey == p.specs[n].key
  }

  lemma OneMoreItem(rows0: Rows, p: Plan, now: string, enqueued: seq<string>, rows: Rows, id: string, next: Rows)
    requires p.Planned? && forall n | n in p.order :: n in p.specs && n in p.resolved && n in p.ids
    requires Distinct(p.order) && Injective(p.ids) && forall i | 0 <= i < |p.order| :: p.ids[p.order[i]] !in rows0
    requires Storing(rows0, p, now, enqueued, rows) && |enqueued| < |p.order|
    requires SubmitsOne(p, p.order[|enqueued|], now, rows, id, next) && p.specs[p.order[|enqueued|]].accepted
    ensures Storing(rows0, p, now, enqueued + [id], next)
  {
    OneMoreUpTo(rows0, p, now, enqueued, rows, id, next);
    if NoKeyReuse(rows0, p.specs) {
      KeysStayFree(rows0, p, now, |enqueued|);
      OneMoreStored(rows0, p, now, enqueued, rows);
    }
  }

  /** A batch that was given up: its plan, the table when an item was rejected, and the ids stored by then. */
  datatype Trace = Trace(plan: Plan, stored: Rows, enqueued: seq<string>)

  ghost predicate Tracks(rows0: Rows, newIds: seq<string>, t: Trace) {
    && t.plan.Planned? && Usable(rows0, newIds, t.plan) && StoredUpTo(rows0, t.plan, t.enqueued, t.stored)
    && |t.enqueued| < |t.plan.order| && !t.plan.specs[t.plan.order[|t.enqueued|]].accepted
    && forall i | 0 <= i < |t.enqueued| :: t.plan.specs[t.plan.order[i]].accepted
  }

  datatype BatchOutcome =
    | NotStarted(error: BatchError)
    | Complete(ids: seq<string>)
    | Aborted
    | CleanupFailed

  /** `submit_batch` of the client, over the table it shares with the cancel path. */
  class BatchClient {
    const board: JobBoard

    constructor (board: JobBoard)
      ensures this.board == board
    {
      this.board := board;
    }

    /** `submit` of one item: the job that has its key already, or a new row. */
    method SubmitOne(p: Plan, n: string, now: string) returns (id: string)
      requires p.Planned? && n in p.specs && n in p.resolved && n in p.ids && AllListed(board.rows, board.order)
      modifies board
      ensures AllListed(board.rows, board.order)
      ensures SubmitsOne(p, n, now, old(board.rows), id, board.rows)
    {
      var key := p.specs[n].key;
      if j :| key.Some? && j in board.rows && board.rows[j].idempotencyKey == key {
        return j;
      }
      id := p.ids[n];
      board.rows := board.rows[id := NewRow(p, n, now)];
      board.order := board.order + [id];
    }

    /** Submits the planned items in order; stops at the first one that `submit` rejects. */
    method StoreItems(p: Plan, now: string) returns (enqueued: seq<string>)
      requires p.Planned? && forall n | n in p.order :: n in p.specs && n in p.resolved && n in p.ids
      requires Distinct(p.order) && Injective(p.ids)
      requires forall i | 0 <= i < |p.order| :: p.ids[p.order[i]] !in board.rows
      requires AllListed(board.rows, board.order)
      modifies board
      ensures AllListed(board.rows, board.order)
      ensures |enqueued| <= |p.order|
      ensures |enqueued| < |p.order| ==> !p.specs[p.order[|enqueued|]].accepted
      ensures forall i | 0 <= i < |enqueued| :: p.specs[p.order[i]].accepted
      ensures StoredUpTo(old(board.rows), p, enqueued, board.rows)
      ensures NoKeyReuse(old(board.rows), p.specs) ==> StoredSoFar(old(board.rows), p, now, enqueued, board.rows)
    {
      enqueued := [];
      ghost var rows0 := board.rows;
      var i := 0;
      while i < |p.order|
        invariant 0 <= i <= |p.order| && |enqueued| == i
        invariant Storing(rows0, p, now, enqueued, board.rows)
        invariant AllListed(board.rows, board.order)
      {
        var n := p.order[i];
        if !p.specs[n].accepted {
          return;
        }
        ghost var before := board.rows;
        var id := SubmitOne(p, n, now);
        OneMoreItem(rows0, p, now, enqueued, before, id, board.rows);
        enqueued := enqueued + [id];
        i := i + 1;
      }
    }

    /** `remove(cancel=True)`: cancel with the cascade, then delete the row. */
    method Remove(id: string, due: set<string>, depth: nat) returns (ok: bool)
      modifies board
      ensures ok <==> Cascade.Cancel(old(board.rows), old(board.order), due, id, depth).Finished?
      ensures ok ==> board.rows == Cascade.Cancel(old(board.rows), old(board.order), due, id, depth).rows - {id}
      ensures board.order == old(board.order)
    {
      var cancelled;
      cancelled, ok := board.Cancel(id, due, depth);
      if ok {
        board.rows := board.rows - {id};
      }
    }

    /** Removes what was enqueued so far, one after the other; `rows0` is the table before the batch. */
    method TakeBack(enqueued: seq<string>, due: set<string>, depth: nat, ghost rows0: Rows, ghost clean: bool) returns (ok: bool)
      requires AllListed(board.rows, board.order)
      requires clean ==> Distinct(enqueued) && Extra(rows0, board.rows, Elements(enqueued))
      modifies board
      ensures board.order == old(board.order)
      ensures ok <==> RemovedAll(old(board.rows), old(board.order), due, enqueued, depth).Some?
      ensures ok ==> RemovedAll(old(board.rows), old(board.order), due, enqueued, depth) == Some(board.rows)
      ensures ok && clean ==> board.rows == rows0
    {
      ghost var stored, order := board.rows, board.order;
      var i := 0;
      while i < |enqueued|
        invariant 0 <= i <= |enqueued| && board.order == order
        invariant RemovedAll(stored, order, due, enqueued[..i], depth) == Some(board.rows)
      {
        assert enqueued[..i + 1][..i] == enqueued[..i] && enqueued[..i + 1][i] == enqueued[i];
        ok := Remove(enqueued[i], due, depth);
        if !ok {
          RemovalsStop(stored, order, due, enqueued, depth, i + 1);
          return;
        }
        i := i + 1;
      }
      assert enqueued[..i] == enqueued;
      if clean {
        assert Elements(enqueued) + {} == Elements(enqueued);
        CleanRemovals(rows0, stored, order, due, enqueued, {}, depth);
        NothingExtra(rows0, board.rows);
      }
      return true;
    }

    method StorePlan(p: Plan, newIds: seq<string>, now: string, due: set<string>, depth: nat)
      returns (r: BatchOutcome, ghost t: Trace)
      requires Usable(board.rows, newIds, p) && AllListed(board.rows, board.order)
      modifies board
      ensures !r.NotStarted?
      ensures r.Aborted? || r.CleanupFailed? ==>
                && t.plan == p && Tracks(old(board.rows), newIds, t) && AllListed(t.stored, board.order)
                && RemovedAll(t.stored, board.order, due, t.enqueued, depth) == if r.Aborted? then Some(board.rows) else None
      ensures r.Complete? ==> forall n | n in p.order :: p.specs[n].accepted
      ensures r.Complete? ==>
                && r.ids == PlanIds(p) && t == Trace(p, board.rows, t.enqueued)
                && |t.enqueued| == |p.order| && StoredUpTo(old(board.rows), p, t.enqueued, board.rows)
      ensures r.Complete? && NoKeyReuse(old(board.rows), p.specs) ==>
                board.rows == Stored(old(board.rows), PlanIds(p), PlanRows(p, now), |p.order|)
      ensures r.Aborted? ==> exists n :: n in p.order && !p.specs[n].accepted
      ensures r.Aborted? && NoKeyReuse(old(board.rows), p.specs) ==> board.rows == old(board.rows)
    {
      ghost var rows0 := board.rows;
      ghost var clean := NoKeyReuse(rows0, p.specs);
      var enqueued := StoreItems(p, now);
      t := Trace(p, board.rows, enqueued);
      if |enqueued| == |p.order| {
        assert PlanIds(p)[..|p.order|] == PlanIds(p);
        return Complete(PlanIds(p)), t;
      }
      if clean { PrefixIsExtra(rows0, newIds, p, now, |enqueued|); }
      var ok := TakeBack(enqueued, due, depth, rows0, clean);
      r := if ok then Aborted else CleanupFailed;
    }

    method SubmitBatch(items: seq<Item>, newIds: seq<string>, now: string, due: set<string>, depth: nat)
      returns (r: BatchOutcome, ghost t: Trace)
      requires |newIds| >= |items| && Distinct(newIds) && Unused(board.rows, newIds)
      requires AllListed(board.rows, board.order)
      modifies board
      // A batch that is invalid or cyclic stores nothing.
      ensures r.NotStarted? ==> board.rows == old(board.rows) && Refuses(items, r.error)
      // All items stored, dependencies first.
      ensures r.Complete? ==> forall i | 0 <= i < |items| :: items[i].accepted
      ensures r.Complete? && KeysFresh(old(board.rows), items) ==>
                BatchIsIn(old(board.rows), board.rows, items, newIds, now, r.ids)
      // Whatever keys are taken: the plan's ids are returned, but an item whose key is stored counts as the row that has it.
      ensures r.Complete? ==>
                && Covers(items, t.plan) && Sound(items, newIds, t.plan) && Usable(old(board.rows), newIds, t.plan)
                && r.ids == PlanIds(t.plan) && |t.enqueued| == |t.plan.order|
                && StoredUpTo(old(board.rows), t.plan, t.enqueued, board.rows)
      // One item was rejected: every job stored so far has been removed again.
      ensures r.Aborted? ==> exists item :: item in items && !item.accepted
      ensures r.Aborted? && KeysFresh(old(board.rows), items) ==> board.rows == old(board.rows)
      // The same whatever keys are taken: the removals, on the table as it was when the item was rejected.
      ensures r.Aborted? || r.CleanupFailed? ==>
                && Covers(items, t.plan) && Sound(items, newIds, t.plan) && Tracks(old(board.rows), newIds, t)
                && AllListed(t.stored, board.order)
                && RemovedAll(t.stored, board.order, due, t.enqueued, depth) == if r.Aborted? then Some(board.rows) else None
    {
      var p := PrepareBatchItems(items, newIds);
      t := Trace(p, board.rows, []);
      if p.Invalid? {
        return NotStarted(p.error), t;
      }
      SoundIsUsable(board.rows, items, newIds, p);
      assert Covers(items, p);
      PlanCoversItems(items, p);
      if KeysFresh(board.rows, items) { FreshKeysInPlan(board.rows, items, p); }
      r, t := StorePlan(p, newIds, now, due, depth);
      if r.Complete? {
        forall i | 0 <= i < |items| ensures items[i].accepted { assert p.names[i] in p.order; }
      }
    }
  }

  /** The table is the old one plus the rows of a sound plan of the items, stored in the plan's order. */
  ghost predicate BatchIsIn(rows0: Rows, rows: Rows, items: seq<Item>, newIds: seq<string>, now: string, ids: seq<string>) {
    exists p: Plan ::
      && p.Planned? && Sound(items, newIds, p) && Usable(rows0, newIds, p) && ids == PlanIds(p)
      && rows == Stored(rows0, PlanIds(p), PlanRows(p, now), |p.order|)
  }

  lemma KeysStayFree(rows: Rows, p: Plan, now: string, k: nat)
    requires p.Planned? && forall n | n in p.order :: n in p.specs && n in p.resolved && n in p.ids
    requires Distinct(p.order) && Injective(p.ids) && k < |p.order|
    requires forall i | 0 <= i < |p.order| :: p.ids[p.order[i]] !in rows
    requires NoKeyReuse(rows, p.specs)
    ensures KeyFree(Stored(rows, PlanIds(p), PlanRows(p, now), k), p.specs[p.order[k]].key)
  {
    var ids, added := PlanIds(p), PlanRows(p, now);
    forall i, j | 0 <= i < j < |ids| ensures ids[i] != ids[j] { assert p.order[i] != p.order[j]; }
    StoredMeaning(rows, ids, added, k);
    var table := Stored(rows, ids, added, k);
    forall j | j in table ensures p.specs[p.order[k]].key.Some? ==> table[j].idempotencyKey != p.specs[p.order[k]].key {
      if j !in rows {
        var i :| 0 <= i < k && ids[..k][i] == j;
        assert p.order[i] != p.order[k];
      }
    }
  }

  lemma PrefixIsExtra(rows: Rows, newIds: seq<string>, p: Plan, now: string, k: nat)
    requires Usable(rows, newIds, p) && k <= |p.order|
    ensures Distinct(PlanIds(p)[..k])
    ensures Extra(rows, Stored(rows, PlanIds(p), PlanRows(p, now), k), Elements(PlanIds(p)[..k]))
  {
    var ids, added := PlanIds(p), PlanRows(p, now);
    forall i, j | 0 <= i < j < |ids| ensures ids[i] != ids[j] { assert p.order[i] != p.order[j]; }
    StoredMeaning(rows, ids, added, k);
  }

  /** No item carries an idempotency key that is stored already or that another item carries. */
  ghost predicate KeysFresh(rows: Rows, items: seq<Item>) {
    && (forall i, j | 0 <= i < |items| && items[i].key.Some? && j in rows :: rows[j].idempotencyKey != items[i].key)
    && (forall i, j | 0 <= i < |items| && 0 <= j < |items| && i != j && items[i].key.Some? :: items[i].key != items[j].key)
  }

  /** The plan's names are those of the items, each with its item, and its order lists exactly the names. */
  ghost predicate Covers(items: seq<Item>, p: Plan) {
    && p.Planned? && |p.names| == |items| && Elements(p.order) == Elements(p.names)
    && (forall n :: n in p.specs <==> n in p.names)
    && forall k | 0 <= k < |items| :: p.names[k] in p.specs && p.specs[p.names[k]] == items[k]
  }

  lemma SpecIsItem(items: seq<Item>, p: Plan, n: string) returns (k: nat)
    requires Covers(items, p) && n in p.specs
    ensures k < |items| && p.names[k] == n && p.specs[n] == items[k]
  {
    k :| 0 <= k < |p.names| && p.names[k] == n;
  }

  lemma FreshKeysInPlan(rows: Rows, items: seq<Item>, p: Plan)
    requires Covers(items, p) && KeysFresh(rows, items)
    ensures NoKeyReuse(rows, p.specs)
  {
    forall n, j | n in p.specs && p.specs[n].key.Some? && j in rows ensures rows[j].idempotencyKey != p.specs[n].key {
      var k := SpecIsItem(items, p, n);
    }
    forall n, m | n in p.specs && m in p.specs && n != m && p.specs[n].key.Some? ensures p.specs[n].key != p.specs[m].key {
      var k := SpecIsItem(items, p, n);
      var l := SpecIsItem(items, p, m);
    }
  }

  /** Every item is in the storing order, and nothing else is. */
  lemma PlanCoversItems(items: seq<Item>, p: Plan)
    requires Covers(items, p)
    ensures forall n | n in p.order :: n in p.specs && p.specs[n] in items
    ensures forall i | 0 <= i < |items| :: p.names[i] in p.order
  {
    forall n | n in p.order ensures n in p.specs && p.specs[n] in items {
      assert n in Elements(p.order);
      var k := SpecIsItem(items, p, n);
    }
    forall i | 0 <= i < |items| ensures p.names[i] in p.order {
      assert p.names[i] in Elements(p.names);
    }
  }
}
