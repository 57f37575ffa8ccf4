/** When the failure cascade returns, and what it has done then. */
module CascadeTermination {
  import opened Cascade
  import opened Graphs
  import opened Jobs

  lemma UndueStays(rows: Rows, due: set<string>, visited: set<string>)
    ensures UndueGraph(SettleAll(rows, due, visited), due) == UndueGraph(rows, due)
  {
    SettleAllLater(rows, due, visited);
    var g, h := UndueGraph(rows, due), UndueGraph(SettleAll(rows, due, visited), due);
    assert g.Keys == h.Keys;
    forall a | a in g ensures g[a] == h[a] {
      assert forall c :: c in g[a] <==> c in h[a];
    }
  }

  /** Walks over undue jobs that start at a visited job are no longer than the recursion depth. */
  ghost predicate ShortWalks(g: Graph<string>, visited: set<string>, depth: nat) {
    forall p | IsPath(g, p) && p[0] in visited :: |p| <= depth
  }

  lemma {:induction false} DependentsWalkShort(rows: Rows, order: seq<string>, due: set<string>, id: string, depth: nat)
    requires AllListed(rows, order) && FailDependents(rows, order, due, id, depth).Finished?
    ensures ShortWalks(UndueGraph(rows, due), FailDependents(rows, order, due, id, depth).visited, depth)
    decreases depth, 1, 0
  {
    EachWalksShort(rows, order, due, Children(rows, order, id), depth);
  }

  lemma {:induction false} EachWalksShort(rows: Rows, order: seq<string>, due: set<string>, children: seq<string>, depth: nat)
    requires AllListed(rows, order) && depth > 0 && FailEach(rows, order, due, children, depth).Finished?
    ensures ShortWalks(UndueGraph(rows, due), FailEach(rows, order, due, children, depth).visited, depth)
    decreases depth, 0, |children|
  {
    if children != [] {
      var c, rest := children[0], children[1..];
      if !Live(rows, c) {
        EachWalksShort(rows, order, due, rest, depth);
      } else {
        var rows1 := rows[c := Settled(rows[c], c in due)];
        var first := FailDependents(rows1, order, due, c, depth - 1);
        DependentsWalkShort(rows1, order, due, c, depth - 1);
        DependentsClose(rows1, order, due, c, depth - 1);
        SettleOne(rows, due, c);
        ChildWalksShort(rows, order, due, c, first, depth - 1);
        EachWalksShort(first.rows, order, due, rest, depth);
      }
    }
  }

  lemma ChildWalksShort(rows: Rows, order: seq<string>, due: set<string>, c: string, first: Outcome, depth: nat)
    requires AllListed(rows, order) && Live(rows, c) && first.Finished?
    requires Closes(SettleAll(rows, due, {c}), due, Elements(Children(SettleAll(rows, due, {c}), order, c)), first)
    requires ShortWalks(UndueGraph(SettleAll(rows, due, {c}), due), first.visited, depth)
    ensures ShortWalks(UndueGraph(rows, due), {c} + first.visited, depth + 1)
    ensures UndueGraph(first.rows, due) == UndueGraph(rows, due)
    ensures AllListed(first.rows, order)
  {
    UndueStays(rows, due, {c});
    SettleTwice(rows, due, {c}, first.visited);
    UndueStays(rows, due, {c} + first.visited);
    forall p | IsPath(UndueGraph(rows, due), p) && p[0] == c ensures |p| <= depth + 1 {
      if |p| > 1 { WalkFromChild(rows, order, due, c, first, depth, p); }
    }
  }

  lemma WalkFromChild(rows: Rows, order: seq<string>, due: set<string>, c: string, first: Outcome, depth: nat, p: seq<string>)
    requires AllListed(rows, order) && first.Finished?
    requires Closes(SettleAll(rows, due, {c}), due, Elements(Children(SettleAll(rows, due, {c}), order, c)), first)
    requires ShortWalks(UndueGraph(rows, due), first.visited, depth)
    requires IsPath(UndueGraph(rows, due), p) && |p| > 1 && p[0] == c
    ensures |p| <= depth + 1
  {
    var rows1 := SettleAll(rows, due, {c});
    assert Edge(UndueGraph(rows, due), p[0], p[1]);
    ChildrenAre(rows1, order, c);
    assert p[1] in Elements(Children(rows1, order, c)) && Live(rows1, p[1]);
    assert IsPath(UndueGraph(rows, due), p[1..]);
  }

  /** More depth changes nothing once the call returns. */
  lemma {:induction false} DependentsDeeper(rows: Rows, order: seq<string>, due: set<string>, id: string, depth: nat, more: nat)
    requires depth <= more && FailDependents(rows, order, due, id, depth).Finished?
    ensures FailDependents(rows, order, due, id, more) == FailDependents(rows, order, due, id, depth)
    decreases depth, 1, 0
  {
    EachDeeper(rows, order, due, Children(rows, order, id), depth, more);
  }

  lemma {:induction false} EachDeeper(rows: Rows, order: seq<string>, due: set<string>, children: seq<string>, depth: nat, more: nat)
    requires 0 < depth <= more && FailEach(rows, order, due, children, depth).Finished?
    ensures FailEach(rows, order, due, children, more) == FailEach(rows, order, due, children, depth)
    decreases depth, 0, |children|
  {
    if children != [] {
      var c, rest := children[0], children[1..];
      if !Live(rows, c) {
        EachDeeper(rows, order, due, rest, depth, more);
      } else {
        var rows1 := rows[c := Settled(rows[c], c in due)];
        DependentsDeeper(rows1, order, due, c, depth - 1, more - 1);
        EachDeeper(FailDependents(rows1, order, due, c, depth - 1).rows, order, due, rest, depth, more);
      }
    }
  }

  /** No cycle of undue jobs lies below `c`. */
  ghost predicate Safe(rows: Rows, due: set<string>, c: string) {
    forall u | Reaches(LiveGraph(rows), c, u) :: !OnCycle(UndueGraph(rows, due), u)
  }

  lemma SafeLater(rows: Rows, due: set<string>, visited: set<string>, c: string)
    requires Safe(rows, due, c)
    ensures Safe(SettleAll(rows, due, visited), due, c)
  {
    var later := SettleAll(rows, due, visited);
    LiveEdgesShrink(rows, due, visited);
    UndueStays(rows, due, visited);
    forall u | Reaches(LiveGraph(later), c, u) ensures !OnCycle(UndueGraph(later, due), u) {
      ReachesInLarger(LiveGraph(later), LiveGraph(rows), c, u);
    }
  }

  lemma SafeBelow(rows: Rows, due: set<string>, c: string, d: string)
    requires Safe(rows, due, c) && Edge(LiveGraph(rows), c, d)
    ensures Safe(rows, due, d)
  {
    forall u | Reaches(LiveGraph(rows), d, u) ensures !OnCycle(UndueGraph(rows, due), u) {
      ReachesStep(LiveGraph(rows), c, d, u);
    }
  }

  /** Live jobs that a visit makes terminal, and live jobs that no visit changes. */
  ghost function Closable(rows: Rows, due: set<string>): set<string> {
    set x | x in rows && Live(rows, x) && !Undue(rows, due, x)
  }

  ghost function Stuck(rows: Rows, due: set<string>): set<string> {
    set x | x in rows && Undue(rows, due, x)
  }

  /** The undue jobs on the recursion stack since the last job that a visit closed, all leading to `id`. */
  ghost predicate Chain(rows: Rows, due: set<string>, chain: set<string>, id: string) {
    && chain <= Stuck(rows, due)
    && (chain != {} ==> Undue(rows, due, id))
    && (forall x | x in chain :: Reaches(UndueGraph(rows, due), x, id))
  }

  lemma ChainGrows(rows: Rows, due: set<string>, chain: set<string>, id: string, c: string)
    requires Chain(rows, due, chain, id) && Edge(LiveGraph(rows), id, c) && Undue(rows, due, c) && Safe(rows, due, c)
    ensures Undue(rows, due, id) ==> c !in chain && Chain(rows, due, chain + {c}, c)
    ensures !Undue(rows, due, id) ==> chain == {} && Chain(rows, due, {c}, c)
  {
    var g := UndueGraph(rows, due);
    ReachesSelf(g, c);
    ReachesSelf(LiveGraph(rows), c);
    if Undue(rows, due, id) {
      assert Edge(g, id, c);
      if c in chain { BackEdgeClosesCycle(g, id, c); }
      forall x | x in chain ensures Reaches(g, x, c) { ReachesSnoc(g, x, id, c); }
    }
  }

  lemma ClosableShrinks(rows: Rows, due: set<string>, visited: set<string>)
    ensures |Closable(SettleAll(rows, due, visited), due)| <= |Closable(rows, due)|
    ensures Stuck(SettleAll(rows, due, visited), due) == Stuck(rows, due)
    ensures (exists c :: c in visited && c in Closable(rows, due)) ==>
              |Closable(SettleAll(rows, due, visited), due)| < |Closable(rows, due)|
  {
    var later := SettleAll(rows, due, visited);
    SettleAllLater(rows, due, visited);
    SubsetSize(Closable(later, due), Closable(rows, due));
    if c :| c in visited && c in Closable(rows, due) {
      assert c !in Closable(later, due);
    }
  }

  /** Without a cycle of undue jobs below it, the call returns when it is given enough depth. */
  lemma {:induction false} DependentsReturn(rows: Rows, order: seq<string>, due: set<string>, id: string, chain: set<string>)
    returns (depth: nat)
    requires AllListed(rows, order) && id in rows && Safe(rows, due, id) && Chain(rows, due, chain, id)
    ensures FailDependents(rows, order, due, id, depth).Finished?
    decreases |Closable(rows, due)|, |Stuck(rows, due)| - |chain|, 1, 0
  {
    ChildrenAre(rows, order, id);
    SubsetSize(chain, Stuck(rows, due));
    depth := EachReturns(rows, order, due, id, Children(rows, order, id), chain);
  }

  lemma {:induction false} EachReturns(rows: Rows, order: seq<string>, due: set<string>, id: string, children: seq<string>, chain: set<string>)
    returns (depth: nat)
    requires AllListed(rows, order) && id in rows && Safe(rows, due, id) && Chain(rows, due, chain, id)
    requires forall c | c in children :: c in rows && id in rows[c].request.dependsOn
    ensures depth > 0 && FailEach(rows, order, due, children, depth).Finished?
    decreases |Closable(rows, due)|, |Stuck(rows, due)| - |chain|, 0, |children|
  {
    if children == [] { return 1; }
    var c, rest := children[0], children[1..];
    if !Live(rows, c) {
      depth := EachReturns(rows, order, due, id, rest, chain);
      return;
    }
    var rows1 := rows[c := Settled(rows[c], c in due)];
    SettleOne(rows, due, c);
    assert Edge(LiveGraph(rows), id, c);
    SafeBelow(rows, due, id, c);
    SafeLater(rows, due, {c}, c);
    ClosableShrinks(rows, due, {c});
    var here := if !Undue(rows, due, c) then {} else if Undue(rows, due, id) then chain + {c} else {c};
    if Undue(rows, due, c) {
      ChainGrows(rows, due, chain, id, c);
      assert rows1 == rows;
      SubsetSize(here, Stuck(rows, due));
    } else {
      assert c in Closable(rows, due);
    }
    var d := DependentsReturn(rows1, order, due, c, here);
    var first := FailDependents(rows1, order, due, c, d);
    DependentsClose(rows1, order, due, c, d);
    SettleTwice(rows, due, {c}, first.visited);
    RestIsReady(rows, due, id, chain, {c} + first.visited);
    var e := EachReturns(first.rows, order, due, id, rest, chain);
    depth := if d + 1 > e then d + 1 else e;
    EachAssembles(rows, order, due, children, d, e, depth);
  }

  lemma RestIsReady(rows: Rows, due: set<string>, id: string, chain: set<string>, visited: set<string>)
    requires id in rows && Safe(rows, due, id) && Chain(rows, due, chain, id)
    ensures Later(rows, SettleAll(rows, due, visited), due)
    ensures Safe(SettleAll(rows, due, visited), due, id) && Chain(SettleAll(rows, due, visited), due, chain, id)
    ensures |Closable(SettleAll(rows, due, visited), due)| <= |Closable(rows, due)|
    ensures Stuck(SettleAll(rows, due, visited), due) == Stuck(rows, due)
  {
    SafeLater(rows, due, visited, id);
    ClosableShrinks(rows, due, visited);
    UndueStays(rows, due, visited);
    SettleAllLater(rows, due, visited);
  }

  lemma EachAssembles(rows: Rows, order: seq<string>, due: set<string>, children: seq<string>, d: nat, e: nat, depth: nat)
    requires children != [] && Live(rows, children[0]) && d + 1 <= depth && 0 < e <= depth
    requires FailDependents(rows[children[0] := Settled(rows[children[0]], children[0] in due)], order, due, children[0], d).Finished?
    requires FailEach(FailDependents(rows[children[0] := Settled(rows[children[0]], children[0] in due)],
                                     order, due, children[0], d).rows, order, due, children[1..], e).Finished?
    ensures FailEach(rows, order, due, children, depth).Finished?
  {
    var c := children[0];
    var rows1 := rows[c := Settled(rows[c], c in due)];
    DependentsDeeper(rows1, order, due, c, d, depth - 1);
    EachDeeper(FailDependents(rows1, order, due, c, d).rows, order, due, children[1..], e, depth);
  }

  /** The table once the job itself has been cancelled and before its dependents are looked at. */
  function Struck(rows: Rows, id: string): Rows
    requires id in rows
  {
    rows[id := Close(rows[id], Cancelled)]
  }

  /** Non-terminal, and waiting on `id` directly or through other non-terminal jobs. */
  ghost predicate Below(rows: Rows, id: string, x: string)
    requires id in rows
  {
    Live(Struck(rows, id), x) && Reaches(LiveGraph(Struck(rows, id)), id, x)
  }

  lemma VisitedIsBelow(rows: Rows, order: seq<string>, due: set<string>, id: string, depth: nat)
    requires AllListed(rows, order) && Live(rows, id)
    requires Cancel(rows, order, due, id, depth).Finished?
    ensures forall x :: x in Cancel(rows, order, due, id, depth).visited <==> Below(rows, id, x)
    ensures Cancel(rows, order, due, id, depth).rows == SettleAll(Struck(rows, id), due, Cancel(rows, order, due, id, depth).visited)
  {
    var rows1 := Struck(rows, id);
    var g, visited := LiveGraph(rows1), Cancel(rows, order, due, id, depth).visited;
    DependentsClose(rows1, order, due, id, depth);
    DependentsStayBelow(rows1, order, due, id, depth);
    ChildrenAre(rows1, order, id);
    forall x | x in visited ensures Reaches(g, id, x) {
      assert LedTo(rows1, Elements(Children(rows1, order, id)), x);
      var c :| c in Elements(Children(rows1, order, id)) && Live(rows1, c) && Reaches(g, c, x);
      ReachesStep(g, id, c, x);
    }
    forall x | Below(rows, id, x) ensures x in visited {
      var p :| Connects(g, p, id, x);
      var s := iset y | y == id || y in visited;
      forall a, b | a in s && Edge(g, a, b) ensures b in s {
        if a == id { assert b in Elements(Children(rows1, order, id)); }
      }
      ClosedUnderPath(g, s, p);
    }
  }

  /**
   * When the cascade returns, the job is CANCELLED, every job below it is FAILED if it was QUEUED and
   * due, CANCELLED if it was PROCESSING and untouched if it was not due, and no other row has changed.
   */
  lemma CancelSettlesExactlyBelow(rows: Rows, order: seq<string>, due: set<string>, id: string, depth: nat)
    requires AllListed(rows, order) && Live(rows, id)
    requires Cancel(rows, order, due, id, depth).Finished?
    ensures Cancel(rows, order, due, id, depth).rows.Keys == rows.Keys
    ensures forall x | x in rows ::
              var after := Cancel(rows, order, due, id, depth).rows[x];
              if x == id || (Below(rows, id, x) && rows[x].status.Processing?) then ClosedAs(rows[x], after, Cancelled)
              else if Below(rows, id, x) && x in due then ClosedAs(rows[x], after, Failed)
              else after == rows[x]
  {
    VisitedIsBelow(rows, order, due, id, depth);
  }

  /** The row has the status, a result that says so, and no lease; everything else is as it was. */
  predicate ClosedAs(before: Row, after: Row, status: Status) {
    && after.status == status && after.result.Some? && after.result.value.status == status
    && after.leaseToken.None? && after.leaseExpiresAt.None?
    && after.request == before.request && after.runAt == before.runAt && after.published == before.published
    && after.correlationId == before.correlationId && after.idempotencyKey == before.idempotencyKey
  }

  /**
   * The cascade returns (for some recursion depth) exactly when no cycle of QUEUED jobs whose `run_at`
   * lies in the future can be reached from the cancelled job.
   */
  lemma CancelReturnsIff(rows: Rows, order: seq<string>, due: set<string>, id: string)
    requires AllListed(rows, order) && Live(rows, id)
    ensures (exists depth: nat :: Cancel(rows, order, due, id, depth).Finished?) <==> Safe(Struck(rows, id), due, id)
  {
    var rows1 := Struck(rows, id);
    if depth: nat :| Cancel(rows, order, due, id, depth).Finished? {
      VisitedIsBelow(rows, order, due, id, depth);
      DependentsWalkShort(rows1, order, due, id, depth);
      forall u | Reaches(LiveGraph(rows1), id, u) ensures !OnCycle(UndueGraph(rows1, due), u) {
        if OnCycle(UndueGraph(rows1, due), u) {
          var p := LongWalk(UndueGraph(rows1, due), u, depth + 1);
          var b := CycleGoesThroughAnEdge(UndueGraph(rows1, due), u);
          assert Below(rows, id, u);
        }
      }
    }
    if Safe(rows1, due, id) {
      var depth := DependentsReturn(rows1, order, due, id, {});
      assert Cancel(rows, order, due, id, depth).Finished?;
    }
  }

  /** With every QUEUED job due, any dependency graph, cyclic or not, is handled and closed. */
  lemma DueCascadeCloses(rows: Rows, order: seq<string>, due: set<string>, id: string) returns (depth: nat)
    requires AllListed(rows, order) && Live(rows, id)
    requires forall x | x in rows && rows[x].status.Queued? :: x in due
    ensures Cancel(rows, order, due, id, depth).Finished?
    ensures Cancel(rows, order, due, id, depth).rows.Keys == rows.Keys
    ensures forall x | x in rows :: !Live(rows, x) ==> Cancel(rows, order, due, id, depth).rows[x] == rows[x]
    ensures forall x | x in rows && x != id && Live(rows, x) ::
              Below(rows, id, x) <==> Cancel(rows, order, due, id, depth).rows[x].status.Dead()
  {
    var g := UndueGraph(Struck(rows, id), due);
    forall u ensures !OnCycle(g, u) {
      if OnCycle(g, u) {
        var b := CycleGoesThroughAnEdge(g, u);
        assert false;
      }
    }
    CancelReturnsIff(rows, order, due, id);
    depth :| Cancel(rows, order, due, id, depth).Finished?;
    CancelSettlesExactlyBelow(rows, order, due, id, depth);
  }

  /** Two delayed jobs that wait on each other and on the cancelled one: no recursion depth is enough. */
  lemma UndueCycleNeverReturns(request: Request, row: Row, depth: nat)
    requires row.status.Queued? && row.request == request
    ensures
      var job := row.(request := request.(dependsOn := []));
      var a := row.(request := request.(dependsOn := ["root", "b"]));
      var b := row.(request := request.(dependsOn := ["a"]));
      Cancel(map["root" := job, "a" := a, "b" := b], ["root", "a", "b"], {"root"}, "root", depth) == TooDeep
  {
    var job := row.(request := request.(dependsOn := []));
    var a := row.(request := request.(dependsOn := ["root", "b"]));
    var b := row.(request := request.(dependsOn := ["a"]));
    var rows := map["root" := job, "a" := a, "b" := b];
    var order, due := ["root", "a", "b"], {"root"};
    var rows1 := Struck(rows, "root");
    CancelReturnsIff(rows, order, due, "root");
    var g := UndueGraph(rows1, due);
    assert Edge(g, "a", "b") && Edge(g, "b", "a");
    ReachesSelf(g, "a");
    ReachesStep(g, "b", "a", "a");
    EdgeClosesCycle(g, "a", "b");
    ReachesSelf(LiveGraph(rows1), "a");
    ReachesStep(LiveGraph(rows1), "root", "a", "a");
  }

  /** The jobs table as the client's cancel path uses it. */
  class JobBoard {
    var rows: Rows
    var order: seq<string>

    /** Claims the job and writes a FAILED result under the token; nothing happens if it is not due. */
    method FailBlockedDependency(id: string, due: set<string>)
      requires id in rows && rows[id].status.Queued?
      modifies this`rows
      ensures rows == old(rows)[id := Settled(old(rows)[id], id in due)]
    {
      if id in due {
        rows := rows[id := Close(rows[id], Failed)];
      }
    }

    method CancelOne(id: string) returns (ok: bool)
      modifies this`rows
      ensures ok <==> Live(old(rows), id)
      ensures rows == if ok then old(rows)[id := Close(old(rows)[id], Cancelled)] else old(rows)
    {
      ok := Live(rows, id);
      if ok {
        rows := rows[id := Close(rows[id], Cancelled)];
      }
    }

    /** A running dependent is cancelled, a queued one is failed. */
    method FailOne(c: string, due: set<string>)
      requires Live(rows, c)
      modifies this`rows
      ensures rows == old(rows)[c := Settled(old(rows)[c], c in due)]
    {
      if rows[c].status.Processing? {
        var _ := CancelOne(c);
      } else {
        FailBlockedDependency(c, due);
      }
    }

    /** `ok` is false when the recursion depth runs out. */
    method FailDependents(id: string, due: set<string>, depth: nat) returns (ok: bool)
      modifies this`rows
      decreases depth
      ensures ok <==> Cascade.FailDependents(old(rows), order, due, id, depth).Finished?
      ensures ok ==> rows == Cascade.FailDependents(old(rows), order, due, id, depth).rows
    {
      if depth == 0 {
        return false;
      }
      var children := Children(rows, order, id);
      ghost var all := FailEach(rows, order, due, children, depth);
      var i := 0;
      while i < |children|
        invariant 0 <= i <= |children|
        invariant all.Finished? <==> FailEach(rows, order, due, children[i..], depth).Finished?
        invariant all.Finished? ==> all.rows == FailEach(rows, order, due, children[i..], depth).rows
      {
        var c := children[i];
        assert children[i..][1..] == children[i + 1..];
        if Live(rows, c) {
          FailOne(c, due);
          ok := FailDependents(c, due, depth - 1);
          if !ok { return; }
        }
        i := i + 1;
      }
      ok := true;
    }

    /** `cancelled` is the return value of the call, `ok` says that the cascade returned. */
    method Cancel(id: string, due: set<string>, depth: nat) returns (cancelled: bool, ok: bool)
      modifies this`rows
      ensures cancelled <==> Live(old(rows), id)
      ensures ok <==> Cascade.Cancel(old(rows), order, due, id, depth).Finished?
      ensures ok ==> rows == Cascade.Cancel(old(rows), order, due, id, depth).rows
    {
      cancelled := CancelOne(id);
      ok := true;
      if cancelled {
        ok := FailDependents(id, due, depth);
      }
    }
  }
}
