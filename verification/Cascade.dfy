/** `cancel(cascade=True)`: the recursive failure of everything that waits on a cancelled job. */
module Cascade {
  import opened Graphs
  import opened Jobs

  /** Non-terminal: still QUEUED or PROCESSING. */
  predicate Live(rows: Rows, id: string) {
    id in rows && !rows[id].status.Terminal()
  }

  /** The terminal write: status and result set, lease cleared. */
  function Close(row: Row, status: Status): Row {
    row.(status := status, result := Some(Result(status, "")), leaseExpiresAt := None, leaseToken := None)
  }

  /** A visited dependent: FAILED if it could be claimed, CANCELLED if it was running, else left QUEUED. */
  function Settled(row: Row, due: bool): Row {
    match row.status
    case Queued => if due then Close(row, Failed) else row
    case Processing => Close(row, Cancelled)
    case _ => row
  }

  function SettleAll(rows: Rows, due: set<string>, visited: set<string>): Rows {
    map id | id in rows :: if id in visited then Settled(rows[id], id in due) else rows[id]
  }

  /** `list_dependents`: the rows whose `depends_on` array contains `id`, in table order. */
  function Children(rows: Rows, order: seq<string>, id: string): seq<string> {
    if order == [] then []
    else
      (if order[0] in rows && id in rows[order[0]].request.dependsOn then [order[0]] else [])
      + Children(rows, order[1..], id)
  }

  /** The call either returns, having visited some jobs, or exceeds the recursion depth it was given. */
  datatype Outcome = TooDeep | Finished(rows: Rows, visited: set<string>)

  function FailDependents(rows: Rows, order: seq<string>, due: set<string>, id: string, depth: nat): Outcome
    decreases depth, 1, 0
  {
    if depth == 0 then TooDeep
    else FailEach(rows, order, due, Children(rows, order, id), depth)
  }

  function FailEach(rows: Rows, order: seq<string>, due: set<string>, children: seq<string>, depth: nat): Outcome
    requires depth > 0
    decreases depth, 0, |children|
  {
    if children == [] then Finished(rows, {})
    else
      var c := children[0];
      if !Live(rows, c) then FailEach(rows, order, due, children[1..], depth)
      else
        match FailDependents(rows[c := Settled(rows[c], c in due)], order, due, c, depth - 1)
        case TooDeep => TooDeep
        case Finished(rows', below) =>
          match FailEach(rows', order, due, children[1..], depth)
          case TooDeep => TooDeep
          case Finished(rows'', rest) => Finished(rows'', {c} + below + rest)
  }

  function Cancel(rows: Rows, order: seq<string>, due: set<string>, id: string, depth: nat): Outcome {
    if !Live(rows, id) then Finished(rows, {})
    else FailDependents(rows[id := Close(rows[id], Cancelled)], order, due, id, depth)
  }

  /** From a job to its non-terminal dependents. */
  ghost function LiveGraph(rows: Rows): Graph<string> {
    map a | a in rows :: set c | c in rows && Live(rows, c) && a in rows[c].request.dependsOn
  }

  /** A dependent that is QUEUED with a `run_at` in the future: it cannot be claimed, so it is never settled. */
  predicate Undue(rows: Rows, due: set<string>, id: string) {
    id in rows && rows[id].status.Queued? && id !in due
  }

  ghost function UndueGraph(rows: Rows, due: set<string>): Graph<string> {
    map a | a in rows && Undue(rows, due, a) ::
      set c | c in rows && Undue(rows, due, c) && a in rows[c].request.dependsOn
  }

  /** `rows'` differs from `rows` only in jobs that became terminal; the undue jobs are the same. */
  ghost predicate Later(rows: Rows, rows': Rows, due: set<string>) {
    && rows.Keys == rows'.Keys
    && (forall id | id in rows :: rows'[id].request == rows[id].request)
    && (forall id | id in rows :: Live(rows', id) ==> rows'[id] == rows[id])
    && (forall id | id in rows :: Undue(rows', due, id) <==> Undue(rows, due, id))
  }

  lemma {:induction false} ChildrenAre(rows: Rows, order: seq<string>, id: string)
    ensures forall c :: c in Children(rows, order, id) <==> c in order && c in rows && id in rows[c].request.dependsOn
  {
    if order != [] { ChildrenAre(rows, order[1..], id); }
  }

  /** Every visited job was live, and all that live edges lead to from the starting jobs is visited and settled. */
  ghost predicate Closes(rows: Rows, due: set<string>, start: set<string>, result: Outcome) {
    result.Finished? ==>
      && result.rows == SettleAll(rows, due, result.visited)
      && (forall c | c in start && Live(rows, c) :: c in result.visited)
      && (forall a, b | a in result.visited && Edge(LiveGraph(rows), a, b) :: b in result.visited)
      && (forall v | v in result.visited :: Live(rows, v))
  }

  /** Only what live edges lead to from a live starting job is visited. */
  ghost predicate LedTo(rows: Rows, start: set<string>, v: string) {
    exists c :: c in start && Live(rows, c) && Reaches(LiveGraph(rows), c, v)
  }

  ghost predicate StaysBelow(rows: Rows, start: set<string>, result: Outcome) {
    result.Finished? ==> forall v | v in result.visited :: LedTo(rows, start, v)
  }

  lemma SettleAllLater(rows: Rows, due: set<string>, visited: set<string>)
    ensures Later(rows, SettleAll(rows, due, visited), due)
  {
  }

  lemma SettleTwice(rows: Rows, due: set<string>, a: set<string>, b: set<string>)
    ensures SettleAll(SettleAll(rows, due, a), due, b) == SettleAll(rows, due, a + b)
  {
  }

  lemma SettleOne(rows: Rows, due: set<string>, c: string)
    requires c in rows
    ensures rows[c := Settled(rows[c], c in due)] == SettleAll(rows, due, {c})
  {
  }

  ghost predicate AllListed(rows: Rows, order: seq<string>) {
    forall id | id in rows :: id in order
  }

  lemma LiveEdgesShrink(rows: Rows, due: set<string>, visited: set<string>)
    ensures forall a, b | Edge(LiveGraph(SettleAll(rows, due, visited)), a, b) :: Edge(LiveGraph(rows), a, b)
    ensures forall a, b | Edge(LiveGraph(rows), a, b) && b !in visited :: Edge(LiveGraph(SettleAll(rows, due, visited)), a, b)
  {
  }

  lemma {:induction false} DependentsClose(rows: Rows, order: seq<string>, due: set<string>, id: string, depth: nat)
    requires AllListed(rows, order)
    ensures Closes(rows, due, Elements(Children(rows, order, id)), FailDependents(rows, order, due, id, depth))
    decreases depth, 1, 0
  {
    if depth > 0 { EachCloses(rows, order, due, Children(rows, order, id), depth); }
  }

  lemma {:induction false} EachCloses(rows: Rows, order: seq<string>, due: set<string>, children: seq<string>, depth: nat)
    requires AllListed(rows, order) && depth > 0
    ensures Closes(rows, due, Elements(children), FailEach(rows, order, due, children, depth))
    decreases depth, 0, |children|
  {
    if children == [] {
      assert SettleAll(rows, due, {}) == rows;
    } else {
      var c, rest := children[0], children[1..];
      if !Live(rows, c) {
        EachCloses(rows, order, due, rest, depth);
        assert Elements(children) == {c} + Elements(rest);
      } else {
        var rows1 := rows[c := Settled(rows[c], c in due)];
        SettleOne(rows, due, c);
        DependentsClose(rows1, order, due, c, depth - 1);
        var first := FailDependents(rows1, order, due, c, depth - 1);
        if first.Finished? {
          EachCloses(first.rows, order, due, rest, depth);
          var after := FailEach(first.rows, order, due, rest, depth);
          if after.Finished? {
            StepCloses(rows, order, due, c, first, rest, after);
            assert Elements(children) == {c} + Elements(rest);
          }
        }
      }
    }
  }

  /** One child, everything below it, then the remaining children. */
  lemma StepCloses(rows: Rows, order: seq<string>, due: set<string>, c: string, first: Outcome, rest: seq<string>, after: Outcome)
    requires AllListed(rows, order) && Live(rows, c) && first.Finished? && after.Finished?
    requires Closes(SettleAll(rows, due, {c}), due, Elements(Children(SettleAll(rows, due, {c}), order, c)), first)
    requires Closes(first.rows, due, Elements(rest), after)
    ensures Closes(rows, due, {c} + Elements(rest), Finished(after.rows, {c} + first.visited + after.visited))
  {
    var rows1 := SettleAll(rows, due, {c});
    var here := {c} + first.visited;
    SettleTwice(rows, due, {c}, first.visited);
    assert first.rows == SettleAll(rows, due, here);
    SettleTwice(rows, due, here, after.visited);
    forall a, b | a in here + after.visited && Edge(LiveGraph(rows), a, b) ensures b in here + after.visited {
      if a == c {
        ChildIsVisited(rows, order, due, c, first, b);
      } else if a in first.visited {
        LiveEdgesShrink(rows, due, {c});
        if b != c { assert Edge(LiveGraph(rows1), a, b); }
      } else if b !in here {
        LiveEdgesShrink(rows, due, here);
        assert Edge(LiveGraph(first.rows), a, b);
      }
    }
  }

  lemma ChildIsVisited(rows: Rows, order: seq<string>, due: set<string>, c: string, first: Outcome, b: string)
    requires AllListed(rows, order) && first.Finished? && Edge(LiveGraph(rows), c, b)
    requires Closes(SettleAll(rows, due, {c}), due, Elements(Children(SettleAll(rows, due, {c}), order, c)), first)
    ensures b in {c} + first.visited
  {
    if b != c {
      ChildrenAre(SettleAll(rows, due, {c}), order, c);
      assert b in Elements(Children(SettleAll(rows, due, {c}), order, c));
    }
  }

  lemma {:induction false} DependentsStayBelow(rows: Rows, order: seq<string>, due: set<string>, id: string, depth: nat)
    requires AllListed(rows, order)
    ensures StaysBelow(rows, Elements(Children(rows, order, id)), FailDependents(rows, order, due, id, depth))
    decreases depth, 1, 0
  {
    if depth > 0 { EachStaysBelow(rows, order, due, Children(rows, order, id), depth); }
  }

  lemma {:induction false} EachStaysBelow(rows: Rows, order: seq<string>, due: set<string>, children: seq<string>, depth: nat)
    requires AllListed(rows, order) && depth > 0
    ensures StaysBelow(rows, Elements(children), FailEach(rows, order, due, children, depth))
    decreases depth, 0, |children|
  {
    if children != [] {
      var c, rest := children[0], children[1..];
      assert Elements(children) == {c} + Elements(rest);
      if !Live(rows, c) {
        EachStaysBelow(rows, order, due, rest, depth);
      } else {
        var rows1 := rows[c := Settled(rows[c], c in due)];
        SettleOne(rows, due, c);
        DependentsStayBelow(rows1, order, due, c, depth - 1);
        DependentsClose(rows1, order, due, c, depth - 1);
        var first := FailDependents(rows1, order, due, c, depth - 1);
        if first.Finished? {
          SettleTwice(rows, due, {c}, first.visited);
          EachStaysBelow(first.rows, order, due, rest, depth);
          var after := FailEach(first.rows, order, due, rest, depth);
          if after.Finished? {
            forall v | v in {c} + first.visited + after.visited ensures LedTo(rows, Elements(children), v) {
              if v == c {
                ReachesSelf(LiveGraph(rows), c);
              } else if v in first.visited {
                BelowChild(rows, order, due, c, v);
              } else {
                LedToEarlier(rows, due, {c} + first.visited, Elements(rest), v);
              }
            }
          }
        }
      }
    }
  }

  lemma LedToEarlier(rows: Rows, due: set<string>, here: set<string>, start: set<string>, v: string)
    requires LedTo(SettleAll(rows, due, here), start, v)
    ensures LedTo(rows, start, v)
  {
    LiveEdgesShrink(rows, due, here);
    var later := SettleAll(rows, due, here);
    var s :| s in start && Live(later, s) && Reaches(LiveGraph(later), s, v);
    ReachesInLarger(LiveGraph(later), LiveGraph(rows), s, v);
  }

  lemma BelowChild(rows: Rows, order: seq<string>, due: set<string>, c: string, v: string)
    requires Live(rows, c)
    requires LedTo(SettleAll(rows, due, {c}), Elements(Children(SettleAll(rows, due, {c}), order, c)), v)
    ensures Reaches(LiveGraph(rows), c, v)
  {
    var rows1 := SettleAll(rows, due, {c});
    ChildrenAre(rows1, order, c);
    LedToEarlier(rows, due, {c}, Elements(Children(rows1, order, c)), v);
    var s :| s in Elements(Children(rows1, order, c)) && Live(rows, s) && Reaches(LiveGraph(rows), s, v);
    ReachesStep(LiveGraph(rows), c, s, v);
  }
}
