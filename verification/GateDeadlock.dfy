/** Both gates together: when waiting must end, and two jobs that wait for each other. */
module GateDeadlock {
  import opened Dependencies
  import opened Graphs
  import opened Jobs
  import opened JobTable
  import opened Labels
  import opened Leases
  import opened Text

  predicate IsQueued(rows: Rows, id: string) {
    id in rows && rows[id].status.Queued?
  }

  /** From a QUEUED job to the QUEUED jobs that either gate makes it wait for. */
  ghost function WaitGraph(rows: Rows): Graph<string> {
    map j | j in rows && IsQueued(rows, j) ::
      set d | d in rows && IsQueued(rows, d) &&
              (d in Targets(rows[j].request.dependsOn) || Earlier(rows[j].request, j, Peer(d, rows[d])))
  }

  /** Either gate tells the job to wait. */
  ghost predicate Waits(rows: Rows, id: string)
    requires id in rows
  {
    var request := rows[id].request;
    || Gate(rows, request.dependsOn, id).Wait?
    || (!LabelReady(rows, request, id) && !LabelLost(rows, request, id))
  }

  lemma WaiterHasEdge(rows: Rows, id: string) returns (d: string)
    requires IsQueued(rows, id) && Waits(rows, id)
    requires forall j | j in rows :: !rows[j].status.Processing?
    ensures Edge(WaitGraph(rows), id, d) && IsQueued(rows, d)
  {
    var request := rows[id].request;
    if Gate(rows, request.dependsOn, id).Wait? {
      WaitMeaning(rows, request.dependsOn, id);
      d :| d in Targets(request.dependsOn) && Unfinished(rows, d);
    } else {
      d :| d in rows && Earlier(request, id, Peer(d, rows[d])) && !rows[d].status.Completed?;
      assert !rows[d].status.Dead();
    }
  }

  /**
   * With nothing PROCESSING, and no cycle of dependencies and label ranks among the QUEUED jobs, some QUEUED job
   * is told to wait by neither gate.
   */
  lemma AcyclicWaitsEnd(rows: Rows, start: string) returns (id: string)
    requires IsQueued(rows, start) && forall j | j in rows :: !rows[j].status.Processing?
    requires Acyclic(WaitGraph(rows))
    ensures IsQueued(rows, id) && !Waits(rows, id)
  {
    var g := WaitGraph(rows);
    var queued := set j | j in rows && IsQueued(rows, j);
    assert start in queued;
    if j :| j in queued && !Waits(rows, j) {
      return j;
    }
    forall n | n in queued ensures n in g && g[n] * queued != {} {
      var d := WaiterHasEdge(rows, n);
      assert d in g[n] * queued;
    }
    var c := StuckSetHasCycle(g, queued);
    assert false;
  }

  // Two jobs of one group: the first in rank depends on the second.

  function Grouped(jobLabel: string, dependsOn: seq<string>): Row {
    Fresh(Request(dependsOn, jobLabel, "g", ["first", "second"], None, None), None, "t", None, None)
  }

  const FORWARD := Grouped("first", ["b"])
  const BACKWARD := Grouped("second", [])

  lemma NoWayBack(rows: Rows)
    requires rows == map["a" := FORWARD, "b" := BACKWARD]
    ensures Targets(["b"]) == {"b"} && !Cyclic(rows, "a", ["b"])
  {
    StripProjects("b");
    assert Cleaned(["b"]) == ["b"];
    var g := DependencyGraph(rows);
    assert Targets([]) == {} && g["b"] == {};
    if Reaches(g, "b", "a") {
      var p :| Connects(g, p, "b", "a");
      ClosedUnderPath(g, iset{"b"}, p);
    }
  }

  lemma FirstWaits(rows: Rows)
    requires rows == map["a" := FORWARD, "b" := BACKWARD]
    ensures Waits(rows, "a")
  {
    NoWayBack(rows);
    StripProjects("b");
    assert Judge(rows, "b", "a").Wait?;
    assert Gate(rows, ["b"], "a").Wait?;
  }

  lemma SecondWaits(rows: Rows)
    requires rows == map["a" := FORWARD, "b" := BACKWARD]
    ensures Waits(rows, "b")
  {
    FirstIsEarlier(BACKWARD.request, "b", Peer("a", FORWARD));
    assert "a" in rows && Peer("a", rows["a"]) == Peer("a", FORWARD);
    assert forall p | p in rows :: !rows[p].status.Dead();
  }

  /** A run of two submissions after which both jobs are told to wait, for each other, and nothing is PROCESSING. */
  lemma TwoJobsDeadlock() returns (h: Log)
    ensures IsRun(h) && |h| == 2 && h[0].event == Enqueue("b", BACKWARD) && h[1].event == Enqueue("a", FORWARD)
    ensures var rows := Before(h, 2);
            && rows.Keys == {"a", "b"} && IsQueued(rows, "a") && IsQueued(rows, "b")
            && Waits(rows, "a") && Waits(rows, "b")
  {
    h := Logged([], Enqueue("b", BACKWARD));
    h := Logged(h, Enqueue("a", FORWARD));
    assert Before(h, 2) == map["a" := FORWARD, "b" := BACKWARD];
    FirstWaits(Before(h, 2));
    SecondWaits(Before(h, 2));
  }
}
