/** The gate in front of a job with `depends_on`: ready, wait, or blocked. */
module Dependencies {
  import opened Graphs
  import opened Jobs
  import opened Text

  datatype Reason =
    | InCycle
    | SelfReferential(dep: string)
    | NotFound(dep: string)
    | DeadDependency(dep: string, status: Status)

  datatype Verdict = Ready | Wait | Blocked(reason: Reason)

  function Targets(entries: seq<string>): set<string> {
    Elements(Cleaned(entries))
  }

  /** Job to the jobs it depends on, for every stored row. */
  ghost function DependencyGraph(rows: Rows): Graph<string> {
    map id | id in rows :: Targets(rows[id].request.dependsOn)
  }

  /** `jobId` is reachable from its own dependencies. */
  ghost predicate Cyclic(rows: Rows, jobId: string, dependsOn: seq<string>) {
    exists d :: d in Targets(dependsOn) && Reaches(DependencyGraph(rows), d, jobId)
  }

  /** `seen` never met `jobId`, and whatever it points to is in `seen` or still on the stack. */
  ghost predicate Explored(g: Graph<string>, jobId: string, start: set<string>, seen: set<string>, stack: seq<string>) {
    && jobId !in seen
    && (forall d | d in start :: d in seen || d in stack)
    && (forall a, b | a in seen && Edge(g, a, b) :: b in seen || b in stack)
  }

  /** The depth-first search over stored requests decides reachability, and terminates on every graph. */
  method DependsOnCycle(rows: Rows, jobId: string, dependsOn: seq<string>) returns (r: bool)
    ensures r <==> jobId != "" && Cyclic(rows, jobId, dependsOn)
  {
    if dependsOn == [] || jobId == "" {
      return false;
    }
    ghost var g := DependencyGraph(rows);
    ghost var reached := Reached(rows, jobId, dependsOn);
    var seen: set<string> := {};
    var stack := Cleaned(dependsOn);
    assert forall d | d in stack :: d in Targets(dependsOn);
    while stack != []
      invariant Explored(g, jobId, Targets(dependsOn), seen, stack)
      invariant seen <= reached && forall d | d in stack :: d in reached
      decreases reached - seen, |stack|
    {
      var dep, rest := stack[|stack| - 1], stack[..|stack| - 1];
      assert dep in stack;
      if dep == jobId {
        return true;
      }
      if dep in seen {
        PopSeen(g, jobId, Targets(dependsOn), seen, stack, reached);
        stack := rest;
      } else {
        var more := if dep in rows then Cleaned(rows[dep].request.dependsOn) else [];
        assert Edges(g, dep, more);
        Expand(g, jobId, Targets(dependsOn), seen, stack, more, reached);
        seen := seen + {dep};
        stack := rest + more;
      }
    }
    NotReached(g, jobId, Targets(dependsOn), seen);
    return false;
  }

  ghost predicate Edges(g: Graph<string>, a: string, more: seq<string>) {
    forall b :: b in more <==> Edge(g, a, b)
  }

  ghost predicate FromAny(g: Graph<string>, start: set<string>, d: string) {
    exists s :: s in start && Reaches(g, s, d)
  }

  lemma FromAnySnoc(g: Graph<string>, start: set<string>, a: string, b: string)
    requires FromAny(g, start, a) && Edge(g, a, b)
    ensures FromAny(g, start, b)
  {
    var s :| s in start && Reaches(g, s, a);
    ReachesSnoc(g, s, a, b);
  }

  /** All that the search can meet, as a finite set closed under edges. */
  lemma Reached(rows: Rows, jobId: string, dependsOn: seq<string>) returns (reached: set<string>)
    ensures forall d | d in Targets(dependsOn) :: d in reached
    ensures forall a, b | a in reached && Edge(DependencyGraph(rows), a, b) :: b in reached
    ensures jobId in reached ==> Cyclic(rows, jobId, dependsOn)
  {
    var g, start := DependencyGraph(rows), Targets(dependsOn);
    var known := start + set id, d | id in rows && d in Targets(rows[id].request.dependsOn) :: d;
    reached := set d | d in known && FromAny(g, start, d);
    forall d | d in start ensures d in reached {
      ReachesSelf(g, d);
      assert FromAny(g, start, d);
    }
    forall a, b | a in reached && Edge(g, a, b) ensures b in reached {
      FromAnySnoc(g, start, a, b);
      assert b in Targets(rows[a].request.dependsOn);
    }
  }

  lemma PopSeen(g: Graph<string>, jobId: string, start: set<string>, seen: set<string>, stack: seq<string>, reached: set<string>)
    requires Explored(g, jobId, start, seen, stack) && stack != [] && stack[|stack| - 1] in seen
    requires forall d | d in stack :: d in reached
    ensures Explored(g, jobId, start, seen, stack[..|stack| - 1])
    ensures forall d | d in stack[..|stack| - 1] :: d in reached
  {
    var rest := stack[..|stack| - 1];
    assert forall d | d in stack :: d in rest || d == stack[|stack| - 1];
    assert forall d | d in rest :: d in stack;
  }

  lemma Expand(g: Graph<string>, jobId: string, start: set<string>, seen: set<string>, stack: seq<string>,
               more: seq<string>, reached: set<string>)
    requires Explored(g, jobId, start, seen, stack) && stack != [] && stack[|stack| - 1] != jobId
    requires Edges(g, stack[|stack| - 1], more)
    requires forall d | d in stack :: d in reached
    requires forall a, b | a in reached && Edge(g, a, b) :: b in reached
    ensures Explored(g, jobId, start, seen + {stack[|stack| - 1]}, stack[..|stack| - 1] + more)
    ensures forall d | d in stack[..|stack| - 1] + more :: d in reached
  {
    var rest, dep := stack[..|stack| - 1], stack[|stack| - 1];
    assert dep in stack;
    assert forall d | d in stack :: d in rest || d == dep;
    assert forall d | d in rest :: d in stack;
  }

  lemma NotReached(g: Graph<string>, jobId: string, start: set<string>, seen: set<string>)
    requires Explored(g, jobId, start, seen, [])
    ensures forall d | d in start :: !Reaches(g, d, jobId)
  {
    forall d | d in start ensures !Reaches(g, d, jobId) {
      if Reaches(g, d, jobId) {
        var p :| Connects(g, p, d, jobId);
        ClosedUnderPath(g, (iset x | x in seen), p);
      }
    }
  }

  /** What one entry of the list says, by the job it names. */
  function Judge(rows: Rows, entry: string, jobId: string): Verdict {
    var dep := Strip(entry);
    if dep == "" then Ready
    else if jobId != "" && dep == jobId then Blocked(SelfReferential(dep))
    else if dep !in rows then Blocked(NotFound(dep))
    else if rows[dep].status.Queued? || rows[dep].status.Processing? then Wait
    else if rows[dep].status.Dead() then Blocked(DeadDependency(dep, rows[dep].status))
    else Ready
  }

  /** The loop over the list: the first entry that is not COMPLETED decides. */
  function Scan(rows: Rows, entries: seq<string>, jobId: string): Verdict {
    if entries == [] then Ready
    else
      var v := Judge(rows, entries[0], jobId);
      if v.Ready? then Scan(rows, entries[1..], jobId) else v
  }

  ghost function Gate(rows: Rows, dependsOn: seq<string>, jobId: string): Verdict {
    if dependsOn == [] then Ready
    else if jobId != "" && Cyclic(rows, jobId, dependsOn) then Blocked(InCycle)
    else Scan(rows, dependsOn, jobId)
  }

  /** The same loop with each entry looked up in the table as it is at that moment. */
  function ScanReads(tables: seq<Rows>, entries: seq<string>, jobId: string): Verdict
    requires |tables| == |entries|
  {
    if entries == [] then Ready
    else
      var v := Judge(tables[0], entries[0], jobId);
      if v.Ready? then ScanReads(tables[1..], entries[1..], jobId) else v
  }

  /** The gate, given what the cycle search answered; that search is many look-ups of its own. */
  function GateReads(cyclic: bool, tables: seq<Rows>, dependsOn: seq<string>, jobId: string): Verdict
    requires |tables| == |dependsOn|
  {
    if dependsOn == [] then Ready
    else if cyclic then Blocked(InCycle)
    else ScanReads(tables, dependsOn, jobId)
  }

  lemma {:induction false} SteadyScan(rows: Rows, tables: seq<Rows>, entries: seq<string>, jobId: string)
    requires |tables| == |entries| && forall i | 0 <= i < |tables| :: tables[i] == rows
    ensures ScanReads(tables, entries, jobId) == Scan(rows, entries, jobId)
  {
    if entries != [] { SteadyScan(rows, tables[1..], entries[1..], jobId); }
  }

  /** `rows` is what the cycle search saw, `tables[i]` what the `get` for entry `i` saw. */
  method EvalDependsOn(rows: Rows, tables: seq<Rows>, dependsOn: seq<string>, jobId: string) returns (v: Verdict)
    requires |tables| == |dependsOn|
    ensures v == GateReads(jobId != "" && Cyclic(rows, jobId, dependsOn), tables, dependsOn, jobId)
    ensures (forall i | 0 <= i < |tables| :: tables[i] == rows) ==> v == Gate(rows, dependsOn, jobId)
  {
    if forall i | 0 <= i < |tables| :: tables[i] == rows { SteadyScan(rows, tables, dependsOn, jobId); }
    if dependsOn == [] {
      return Ready;
    }
    var cyclic := DependsOnCycle(rows, jobId, dependsOn);
    if cyclic {
      return Blocked(InCycle);
    }
    var i := 0;
    while i < |dependsOn|
      invariant 0 <= i <= |dependsOn|
      invariant ScanReads(tables, dependsOn, jobId) == ScanReads(tables[i..], dependsOn[i..], jobId)
    {
      var dep := Strip(dependsOn[i]);
      if dep != "" {
        if jobId != "" && dep == jobId { return Blocked(SelfReferential(dep)); }
        if dep !in tables[i] { return Blocked(NotFound(dep)); }
        var status := tables[i][dep].status;
        if status.Queued? || status.Processing? { return Wait; }
        if status.Failed? || status.Cancelled? { return Blocked(DeadDependency(dep, status)); }
      }
      i := i + 1;
    }
    return Ready;
  }

  predicate Unfinished(rows: Rows, dep: string) {
    dep in rows && (rows[dep].status.Queued? || rows[dep].status.Processing?)
  }

  /** Missing, FAILED or CANCELLED. */
  predicate Lost(rows: Rows, dep: string) {
    dep !in rows || rows[dep].status.Dead()
  }

  predicate Done(rows: Rows, dep: string) {
    dep in rows && rows[dep].status.Completed?
  }

  /** What each verdict means, whatever the order of the list. */
  lemma {:induction false} ScanMeaning(rows: Rows, entries: seq<string>, jobId: string)
    requires jobId !in Targets(entries)
    ensures Scan(rows, entries, jobId).Ready? <==> forall d | d in Targets(entries) :: Done(rows, d)
    ensures Scan(rows, entries, jobId).Wait? ==> exists d :: d in Targets(entries) && Unfinished(rows, d)
    ensures Scan(rows, entries, jobId).Blocked? ==> exists d :: d in Targets(entries) && Lost(rows, d)
  {
    if entries != [] {
      var d := Strip(entries[0]);
      assert Targets(entries) == (if d == "" then {} else {d}) + Targets(entries[1..]);
      ScanMeaning(rows, entries[1..], jobId);
    }
  }

  /** Targets are stripped and never blank, so no job with a blank id is anyone's target. */
  lemma {:induction false} TargetsNotBlank(entries: seq<string>)
    ensures "" !in Targets(entries)
  {
    if entries != [] { TargetsNotBlank(entries[1..]); }
  }

  lemma TargetIsCyclic(rows: Rows, jobId: string)
    requires OnCycle(DependencyGraph(rows), jobId)
    ensures jobId in rows && jobId != "" && Cyclic(rows, jobId, rows[jobId].request.dependsOn)
  {
    var g := DependencyGraph(rows);
    var b := CycleGoesThroughAnEdge(g, jobId);
    var p :| |p| >= 2 && Connects(g, p, jobId, jobId);
    assert Edge(g, p[|p| - 2], p[|p| - 1]);
    TargetsNotBlank(rows[p[|p| - 2]].request.dependsOn);
  }

  /** A job waits only for an unfinished job, and never when it is part of a cycle. */
  lemma WaitMeaning(rows: Rows, dependsOn: seq<string>, jobId: string)
    requires Gate(rows, dependsOn, jobId).Wait?
    ensures exists d :: d in Targets(dependsOn) && Unfinished(rows, d)
    ensures jobId == "" || !Cyclic(rows, jobId, dependsOn)
  {
    TargetsNotBlank(dependsOn);
    if jobId in Targets(dependsOn) { ReachesSelf(DependencyGraph(rows), jobId); }
    ScanMeaning(rows, dependsOn, jobId);
  }

  /** Ready means that every listed dependency is COMPLETED. */
  lemma ReadyMeansDone(rows: Rows, dependsOn: seq<string>, jobId: string)
    requires Gate(rows, dependsOn, jobId).Ready?
    ensures forall d | d in Targets(dependsOn) :: Done(rows, d)
  {
    if dependsOn != [] {
      NotOwnTarget(rows, dependsOn, jobId);
      ScanMeaning(rows, dependsOn, jobId);
    }
  }

  /** The entry names another job, and that job is COMPLETED in the table. */
  predicate EntryDone(rows: Rows, entry: string, jobId: string) {
    (jobId == "" || Strip(entry) != jobId) && Done(rows, Strip(entry))
  }

  lemma {:induction false} ReadyScanIff(tables: seq<Rows>, entries: seq<string>, jobId: string)
    requires |tables| == |entries|
    ensures ScanReads(tables, entries, jobId).Ready? <==>
            forall i | 0 <= i < |entries| && Strip(entries[i]) != "" :: EntryDone(tables[i], entries[i], jobId)
  {
    if entries != [] {
      ReadyScanIff(tables[1..], entries[1..], jobId);
      assert forall i | 0 < i < |entries| :: entries[i] == entries[1..][i - 1] && tables[i] == tables[1..][i - 1];
    }
  }

  /** Whatever the search answered: the gate opens exactly when that was no, and each entry was done when it was read. */
  lemma ReadyReadsIff(cyclic: bool, tables: seq<Rows>, dependsOn: seq<string>, jobId: string)
    requires |tables| == |dependsOn|
    ensures GateReads(cyclic, tables, dependsOn, jobId).Ready? <==>
            || dependsOn == []
            || (!cyclic && forall i | 0 <= i < |dependsOn| && Strip(dependsOn[i]) != "" :: EntryDone(tables[i], dependsOn[i], jobId))
  {
    ReadyScanIff(tables, dependsOn, jobId);
  }

  /**
   * The dependency gate never deadlocks. Whatever the graph (cyclic, self-referring, with missing ids):
   * if some job is QUEUED and none is PROCESSING, then some QUEUED job is not told to wait.
   */
  lemma GateNeverDeadlocks(rows: Rows) returns (id: string)
    requires exists j :: j in rows && rows[j].status.Queued?
    requires forall j | j in rows :: !rows[j].status.Processing?
    ensures id in rows && rows[id].status.Queued?
    ensures !Gate(rows, rows[id].request.dependsOn, id).Wait?
  {
    var g := DependencyGraph(rows);
    var queued := set j | j in rows && rows[j].status.Queued?;
    var j :| j in rows && rows[j].status.Queued?;
    assert j in queued;
    if q :| q in queued && !Gate(rows, rows[q].request.dependsOn, q).Wait? {
      return q;
    }
    forall n | n in queued ensures n in g && g[n] * queued != {} {
      assert Gate(rows, rows[n].request.dependsOn, n).Wait?;
      WaitMeaning(rows, rows[n].request.dependsOn, n);
      var d :| d in Targets(rows[n].request.dependsOn) && Unfinished(rows, d);
      assert d in g[n] * queued;
    }
    var c := StuckSetHasCycle(g, queued);
    TargetIsCyclic(rows, c);
    WaitMeaning(rows, rows[c].request.dependsOn, c);
    assert false;
  }

  /** The verdict without its reason. */
  datatype Kind = MayRun | MustWait | MustFail

  ghost function KindOf(v: Verdict): Kind {
    match v
    case Ready => MayRun
    case Wait => MustWait
    case Blocked(_) => MustFail
  }

  /** Both an unfinished and a lost dependency, outside any cycle. */
  ghost predicate Mixed(rows: Rows, dependsOn: seq<string>, jobId: string) {
    && !(jobId != "" && Cyclic(rows, jobId, dependsOn))
    && (exists d :: d in Targets(dependsOn) && Unfinished(rows, d))
    && (exists d :: d in Targets(dependsOn) && Lost(rows, d))
  }

  /**
   * The order of `depends_on` matters exactly when the list is mixed: the loop returns `wait` at an
   * unfinished entry before it looks at a lost one further down.
   */
  lemma OrderMattersIffMixed(rows: Rows, dependsOn: seq<string>, jobId: string)
    ensures Mixed(rows, dependsOn, jobId) <==>
            exists other :: multiset(other) == multiset(dependsOn) &&
                            KindOf(Gate(rows, other, jobId)) != KindOf(Gate(rows, dependsOn, jobId))
  {
    if Mixed(rows, dependsOn, jobId) {
      var d :| d in Targets(dependsOn) && Unfinished(rows, d);
      var e :| e in Targets(dependsOn) && Lost(rows, e);
      var waiting := FrontDecides(rows, dependsOn, d, jobId);
      var failing := FrontDecides(rows, dependsOn, e, jobId);
    } else {
      forall other | multiset(other) == multiset(dependsOn)
        ensures KindOf(Gate(rows, other, jobId)) == KindOf(Gate(rows, dependsOn, jobId))
      {
        UnmixedIsStable(rows, dependsOn, other, jobId);
      }
    }
  }

  /** With an entry that is not COMPLETED moved to the front, that entry alone gives the verdict. */
  lemma FrontDecides(rows: Rows, dependsOn: seq<string>, d: string, jobId: string) returns (moved: seq<string>)
    requires !(jobId != "" && Cyclic(rows, jobId, dependsOn)) && d in Targets(dependsOn)
    ensures multiset(moved) == multiset(dependsOn)
    ensures Unfinished(rows, d) ==> KindOf(Gate(rows, moved, jobId)) == MustWait
    ensures Lost(rows, d) ==> KindOf(Gate(rows, moved, jobId)) == MustFail
  {
    moved := MoveToFront(dependsOn, d);
    SameTargets(dependsOn, moved);
    NotOwnTarget(rows, dependsOn, jobId);
  }

  lemma UnmixedIsStable(rows: Rows, dependsOn: seq<string>, other: seq<string>, jobId: string)
    requires !Mixed(rows, dependsOn, jobId) && multiset(other) == multiset(dependsOn)
    ensures KindOf(Gate(rows, other, jobId)) == KindOf(Gate(rows, dependsOn, jobId))
  {
    SameTargets(dependsOn, other);
    if !(jobId != "" && Cyclic(rows, jobId, dependsOn)) {
      NotOwnTarget(rows, dependsOn, jobId);
      ScanMeaning(rows, dependsOn, jobId);
      ScanMeaning(rows, other, jobId);
    }
  }

  lemma NotOwnTarget(rows: Rows, dependsOn: seq<string>, jobId: string)
    requires !(jobId != "" && Cyclic(rows, jobId, dependsOn))
    ensures jobId !in Targets(dependsOn)
  {
    TargetsNotBlank(dependsOn);
    if jobId in Targets(dependsOn) { ReachesSelf(DependencyGraph(rows), jobId); }
  }

  /** `Targets` depends only on which entries there are. */
  lemma {:induction false} TargetsAre(entries: seq<string>)
    ensures forall d :: d in Targets(entries) <==> d != "" && exists e :: e in multiset(entries) && Strip(e) == d
  {
    if entries == [] {
      assert multiset(entries) == multiset{};
    } else {
      TargetsAre(entries[1..]);
      assert entries == [entries[0]] + entries[1..];
      assert multiset(entries) == multiset{entries[0]} + multiset(entries[1..]);
      var d0 := Strip(entries[0]);
      assert Targets(entries) == (if d0 == "" then {} else {d0}) + Targets(entries[1..]);
      forall d ensures d in Targets(entries) <==> d != "" && exists e :: e in multiset(entries) && Strip(e) == d {
        if d in Targets(entries[1..]) {
          var e :| e in multiset(entries[1..]) && Strip(e) == d;
          assert e in multiset(entries);
        } else if d == d0 && d != "" {
          assert entries[0] in multiset(entries);
        }
      }
    }
  }

  lemma SameTargets(a: seq<string>, b: seq<string>)
    requires multiset(a) == multiset(b)
    ensures Targets(a) == Targets(b)
    ensures a == [] <==> b == []
  {
    TargetsAre(a);
    TargetsAre(b);
  }

  lemma MoveToFront(entries: seq<string>, d: string) returns (moved: seq<string>)
    requires d in Targets(entries)
    ensures multiset(moved) == multiset(entries) && moved != [] && Strip(moved[0]) == d && d != ""
  {
    TargetsAre(entries);
    var e :| e in multiset(entries) && Strip(e) == d;
    var i :| 0 <= i < |entries| && entries[i] == e;
    moved := Promote(entries, i);
  }

  lemma Promote(entries: seq<string>, i: nat) returns (moved: seq<string>)
    requires i < |entries|
    ensures multiset(moved) == multiset(entries) && moved != [] && moved[0] == entries[i]
  {
    moved := [entries[i]] + entries[..i] + entries[i + 1..];
    assert entries == entries[..i] + [entries[i]] + entries[i + 1..];
  }
}
