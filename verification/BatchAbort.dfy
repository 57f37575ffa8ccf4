/** What giving up a batch does to the jobs that were there before it. */
module BatchAbort {
  import opened BatchStore
  import opened BatchSubmit
  import opened Cascade
  import opened CascadeTermination
  import opened Dependencies
  import opened Graphs
  import opened Jobs
  import opened Removal
  import opened Text
  import opened Topology

  /** Item `i` of the plan's order carries a key that was stored before the batch. */
  ghost predicate ReusesKey(rows0: Rows, t: Trace, i: nat)
    requires t.plan.Planned? && i < |t.plan.order| && t.plan.order[i] in t.plan.specs
  {
    !KeyFree(rows0, t.plan.specs[t.plan.order[i]].key)
  }

  lemma NewItemHitsNothingOld(
      rows0: Rows, newIds: seq<string>, t: Trace, order: seq<string>, due: set<string>, depth: nat, i: nat, x: string)
    requires Tracks(rows0, newIds, t) && AllListed(t.stored, order) && RemovedAll(t.stored, order, due, t.enqueued, depth).Some?
    requires i < |t.enqueued| && t.enqueued[i] !in rows0 && x in rows0
    ensures !HitsAt(t.stored, order, due, t.enqueued, depth, i, x)
  {
    var before := RemovedAll(t.stored, order, due, t.enqueued[..i], depth);
    if before.Some? {
      RemovalsTouchHit(t.stored, order, due, t.enqueued[..i], depth, x);
      forall f | f in before.value && f !in rows0 ensures f in newIds {
        var n :| n in t.plan.ids && t.plan.ids[n] == f;
      }
      NewHitsNothingOld(rows0, before.value, due, t.enqueued[i], x);
    }
  }

  /**
   * A batch that is given up removes or changes a job from before it exactly when some item that was accepted
   * before the rejected one carries a stored key, and the removal of the row with that key hits the job.
   */
  lemma AbortTouchesOldRowIff(
      rows0: Rows, newIds: seq<string>, t: Trace, order: seq<string>, due: set<string>, depth: nat, after: Rows, x: string)
    requires Tracks(rows0, newIds, t) && AllListed(t.stored, order)
    requires RemovedAll(t.stored, order, due, t.enqueued, depth) == Some(after) && x in rows0
    ensures !Untouched(rows0, after, x) <==>
            exists i :: 0 <= i < |t.enqueued| && ReusesKey(rows0, t, i) && HitsAt(t.stored, order, due, t.enqueued, depth, i, x)
  {
    RemovalsTouchHit(t.stored, order, due, t.enqueued, depth, x);
    forall i | 0 <= i < |t.enqueued| && !ReusesKey(rows0, t, i)
      ensures !HitsAt(t.stored, order, due, t.enqueued, depth, i, x)
    {
      NewItemHitsNothingOld(rows0, newIds, t, order, due, depth, i, x);
    }
  }

  /** The older jobs that go are exactly those whose key such an item carries. */
  lemma AbortRemovesOldRowIff(
      rows0: Rows, newIds: seq<string>, t: Trace, order: seq<string>, due: set<string>, depth: nat, after: Rows, x: string)
    requires Tracks(rows0, newIds, t) && AllListed(t.stored, order)
    requires RemovedAll(t.stored, order, due, t.enqueued, depth) == Some(after) && x in rows0
    ensures x !in after <==> exists i :: 0 <= i < |t.enqueued| && ReusesKey(rows0, t, i) && t.enqueued[i] == x
  {
    RemovalsTakeIds(t.stored, order, due, t.enqueued, depth);
  }

  /** Over an acyclic table the cleanup returns, given enough depth, whatever is due. */
  lemma {:induction false} CleanupReturns(rows: Rows, order: seq<string>, due: set<string>, ids: seq<string>) returns (depth: nat)
    requires AllListed(rows, order) && NormalRows(rows) && Acyclic(DependencyGraph(rows))
    ensures forall more | more >= depth :: RemovedAll(rows, order, due, ids, more).Some?
    decreases |ids|
  {
    if ids == [] {
      return 0;
    }
    var first, last := ids[..|ids| - 1], ids[|ids| - 1];
    var d := CleanupReturns(rows, order, due, first);
    var before := RemovedAll(rows, order, due, first, d).value;
    RemovalsTakeIds(rows, order, due, first, d);
    RemovalsDwindle(rows, order, due, first, d);
    DwindlesAcyclic(rows, before);
    var e := LastReturns(before, order, due, last);
    depth := if d > e then d else e;
    forall more | more >= depth ensures RemovedAll(rows, order, due, ids, more).Some? {
      RemovedDeeper(rows, order, due, first, d, more);
      RemovedDeeper(before, order, due, [last], e, more);
      assert [last][..0] == [] && [last][0] == last;
    }
  }

  lemma LastReturns(rows: Rows, order: seq<string>, due: set<string>, id: string) returns (depth: nat)
    requires AllListed(rows, order) && NormalRows(rows) && Acyclic(DependencyGraph(rows))
    ensures RemovedAll(rows, order, due, [id], depth).Some?
  {
    depth := 0;
    if Live(rows, id) { depth := AcyclicCancelReturns(rows, order, due, id); }
    assert [id][..0] == [] && [id][0] == id;
  }

  lemma RemovalsDwindle(rows: Rows, order: seq<string>, due: set<string>, ids: seq<string>, depth: nat)
    requires AllListed(rows, order) && RemovedAll(rows, order, due, ids, depth).Some?
    ensures Dwindles(rows, RemovedAll(rows, order, due, ids, depth).value)
  {
    forall x | x in rows ensures Dwindles(rows, RemovedAll(rows, order, due, ids, depth).value) {
      RemovalsTouchHit(rows, order, due, ids, depth, x);
    }
    RemovalsTakeIds(rows, order, due, ids, depth);
  }

  lemma DwindlesAcyclic(rows: Rows, after: Rows)
    requires Dwindles(rows, after) && NormalRows(rows) && Acyclic(DependencyGraph(rows))
    ensures NormalRows(after) && Acyclic(DependencyGraph(after))
  {
    var g, h := DependencyGraph(after), DependencyGraph(rows);
    forall a ensures !OnCycle(g, a) {
      if OnCycle(g, a) { CycleInLarger(g, h, a); }
    }
  }

  // A batch that takes an older job with it.

  const OLD := Row(Completed, Request([], "", "", [], Some("k"), None), None, "t", Some(Result(Completed, "output")), None, None, None, Some("k"), false)

  /** The first item has the key of a stored job; the second depends on the first and is rejected. */
  const REUSING := [
    Item(Some("a"), None, Absent, OLD.request, None, Some("k"), true),
    Item(Some("b"), None, Entries(["a"]), OLD.request, None, None, false)]

  lemma ReusingNames()
    ensures ItemNames(REUSING) == ["a", "b"] && ItemDeps(REUSING) == [[], ["a"]]
  {
    StripProjects("a");
    StripProjects("b");
    assert Cleaned(["a"]) == ["a"];
  }

  lemma LocalSingle(a: string, names: set<string>)
    requires a in names && a != "" && Stripped(a)
    ensures Local([a], names) == [a] && Local([], names) == []
  {
    StripProjects(a);
    assert [a][..0] == [];
    assert [] + [a] == [a];
  }

  lemma OneEdge(a: string, b: string, deps: map<string, seq<string>>)
    requires a != "" && Stripped(a) && a in deps && b in deps && deps[a] == [] && deps[b] == [a]
    ensures forall x, y | Edge(BatchGraph([a, b], deps), x, y) :: x == b && y == a
  {
    var names := Elements([a, b]);
    LocalSingle(a, names);
    EdgesOf(a, b, LocalMap(names, deps));
  }

  lemma EdgesOf(a: string, b: string, local: map<string, seq<string>>)
    requires local.Keys == Elements([a, b]) && a in local && b in local && local[a] == [] && local[b] == [a]
    ensures forall x, y | Edge(GraphOf(local), x, y) :: x == b && y == a
  {
    assert Elements([a, b]) == {a, b};
  }

  lemma TwoAreSortable(a: string, b: string, deps: map<string, seq<string>>)
    requires a != b && a != "" && Stripped(a) && a in deps && b in deps && deps[a] == [] && deps[b] == [a]
    ensures Acyclic(BatchGraph([a, b], deps))
  {
    var g, order := BatchGraph([a, b], deps), [a, b];
    OneEdge(a, b, deps);
    forall x, y | Edge(g, x, y) ensures exists i, j :: 0 <= i < j < |order| && order[i] == y && order[j] == x {
      assert order[0] == y && order[1] == x;
    }
    TargetsFirstIsAcyclic(g, order);
  }

  lemma ReusingIsSortable(deps: map<string, seq<string>>)
    requires ListsDeps(REUSING, deps)
    ensures Acyclic(BatchGraph(ItemNames(REUSING), deps))
  {
    ReusingNames();
    assert deps[ItemNames(REUSING)[0]] == ItemDeps(REUSING)[0] && deps[ItemNames(REUSING)[1]] == ItemDeps(REUSING)[1];
    TwoAreSortable("a", "b", deps);
  }

  lemma ReusingIsNotRefused(error: BatchError)
    ensures !Refuses(REUSING, error)
  {
    ReusingNames();
    forall deps | ListsDeps(REUSING, deps) ensures Acyclic(BatchGraph(ItemNames(REUSING), deps)) { ReusingIsSortable(deps); }
  }

  /** In any plan of the two items the first comes first. */
  lemma FirstComesFirst(p: Plan, newIds: seq<string>)
    requires p.Planned? && Sound(REUSING, newIds, p)
    ensures exists i, j :: 0 <= i < j < |p.order| && p.order[i] == "a" && p.order[j] == "b"
  {
    ReusingNames();
    assert p.names[0] == "a" && p.names[1] == "b";
    assert p.deps[p.names[1]] == ItemDeps(REUSING)[1];
    HasEdge("a", "b", p.names, p.deps);
  }

  lemma OnlyTwo(order: seq<string>, a: string, b: string)
    requires Elements(order) == Elements([a, b])
    ensures forall i | 0 <= i < |order| :: order[i] == a || order[i] == b
  {
    forall i | 0 <= i < |order| ensures order[i] == a || order[i] == b {
      assert order[i] in Elements(order);
    }
  }

  lemma HasEdge(a: string, b: string, names: seq<string>, deps: map<string, seq<string>>)
    requires a in names && b in names && a != "" && Stripped(a) && b in deps && deps[b] == [a]
    ensures Edge(BatchGraph(names, deps), b, a)
  {
    LocalSingle(a, Elements(names));
    assert a in Elements(LocalMap(Elements(names), deps)[b]);
  }

  /** Two items, `a` first, of which only `a` is accepted. */
  ghost predicate SecondRejected(p: Plan, a: string, b: string) {
    && p.Planned? && Distinct(p.order) && a in p.specs && b in p.specs && p.specs[a].accepted && !p.specs[b].accepted
    && (forall i | 0 <= i < |p.order| :: p.order[i] == a || p.order[i] == b)
    && exists i, j :: 0 <= i < j < |p.order| && p.order[i] == a && p.order[j] == b
  }

  lemma FirstTwoDiffer(order: seq<string>)
    requires Distinct(order) && |order| > 1
    ensures order[0] != order[1]
  {
  }

  lemma StopsAtSecond(p: Plan, n: nat, a: string, b: string)
    requires SecondRejected(p, a, b) && n < |p.order| && !p.specs[p.order[n]].accepted
    requires forall k | 0 <= k < n :: p.specs[p.order[k]].accepted
    ensures n == 1 && p.order[0] == a
  {
    var i, j :| 0 <= i < j < |p.order| && p.order[i] == a && p.order[j] == b;
    assert p.order[n] == b && j == n;
    FirstTwoDiffer(p.order);
  }

  lemma ReusingPlan(p: Plan, newIds: seq<string>)
    requires Covers(REUSING, p) && Sound(REUSING, newIds, p)
    ensures SecondRejected(p, "a", "b") && p.specs["a"] == REUSING[0]
  {
    FirstComesFirst(p, newIds);
    ReusingNames();
    SpecsAre(p);
    OnlyTwo(p.order, "a", "b");
  }

  /** So when the second is rejected just the first has been stored, as the job that had its key. */
  lemma FirstIsOld(rows0: Rows, old': string, p: Plan, enqueued: seq<string>, stored: Rows)
    requires p.Planned? && forall n | n in p.order :: n in p.specs && n in p.resolved && n in p.ids
    requires StoredUpTo(rows0, p, enqueued, stored) && |enqueued| == 1 && rows0.Keys == {old'}
    requires !KeyFree(rows0, p.specs[p.order[0]].key)
    ensures enqueued == [old'] && old' in stored && stored[old'] == rows0[old']
  {
  }

  lemma ReusingStoresOld(rows0: Rows, newIds: seq<string>, t: Trace)
    requires rows0 == map["old" := OLD] && SecondRejected(t.plan, "a", "b") && t.plan.specs["a"].key == Some("k")
    requires Tracks(rows0, newIds, t)
    ensures t.enqueued == ["old"] && "old" in t.stored && t.stored["old"] == OLD
  {
    StopsAtSecond(t.plan, |t.enqueued|, "a", "b");
    OldHasKey(rows0, Some("k"));
    FirstIsOld(rows0, "old", t.plan, t.enqueued, t.stored);
  }

  lemma OldHasKey(rows0: Rows, key: Option<string>)
    requires rows0 == map["old" := OLD] && key == Some("k")
    ensures !KeyFree(rows0, key)
  {
    assert "old" in rows0;
  }

  lemma SpecsAre(p: Plan)
    requires Covers(REUSING, p)
    ensures p.names == ["a", "b"] ==> "a" in p.specs && "b" in p.specs && p.specs["a"] == REUSING[0] && p.specs["b"] == REUSING[1]
  {
    assert p.names[0] in p.specs && p.names[1] in p.specs;
  }

  lemma OldJobGoes(rows: Rows, order: seq<string>)
    requires "old" in rows && rows["old"] == OLD
    ensures RemovedAll(rows, order, {}, ["old"], 1) == Some(rows - {"old"})
  {
    assert ["old"][..0] == [];
  }

  /** Giving up the batch deletes the stored job whose key the first item repeats, and its result with it. */
  method ReusedKeyTakesOldJob(client: BatchClient) returns (r: BatchOutcome)
    requires client.board.rows == map["old" := OLD] && client.board.order == ["old"]
    modifies client.board
    ensures r.Aborted? && "old" !in client.board.rows
  {
    var newIds := ["x", "y"];
    ghost var rows0 := client.board.rows;
    ghost var t;
    r, t := client.SubmitBatch(REUSING, newIds, "t", {}, 1);
    assert !REUSING[1].accepted;
    if r.NotStarted? {
      ReusingIsNotRefused(r.error);
      assert false;
    }
    ReusingPlan(t.plan, newIds);
    ReusingStoresOld(rows0, newIds, t);
    OldJobGoes(t.stored, client.board.order);
  }
}
