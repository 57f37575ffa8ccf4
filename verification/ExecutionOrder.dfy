/** Whatever a worker executes comes after its dependencies and its earlier-ranked peers. */
module ExecutionOrder {
  import opened Dependencies
  import opened Jobs
  import opened JobTable
  import opened Labels
  import opened Leases
  import opened Text

  // COMPLETED over a run.

  predicate StillCompleted(rows: Rows, id: string, request: Request) {
    id in rows && rows[id].status.Completed? && rows[id].request == request
  }

  /** The steps that take a COMPLETED job out of that state: the untokened writes, a delete, a requeue that allows it. */
  predicate Undoes(e: Event, id: string) {
    && e.id == id
    && (|| e.CancelMark? || e.Delete?
        || (e.Overwrite? && !e.result.status.Completed?)
        || (e.Requeue? && Completed in e.allowed))
  }

  lemma CompletedSurvivesStepIff(rows: Rows, e: Event, id: string, request: Request)
    requires WellFormed(e) && StillCompleted(rows, id, request)
    ensures StillCompleted(Step(rows, e), id, request) <==> !Undoes(e, id)
  {
    if e.id != id { OtherRowsStay(rows, e, id); }
  }

  /** No such step of the job from `from` up to `to`. */
  ghost predicate Undisturbed(h: Log, from: nat, to: nat, id: string)
    requires to <= |h|
  {
    forall k | from <= k < to :: !Undoes(h[k].event, id)
  }

  ghost predicate Lasts(h: Log, from: nat, to: nat, id: string, request: Request)
    requires to <= |h|
  {
    forall k | from <= k <= to :: StillCompleted(Before(h, k), id, request)
  }

  /** COMPLETED lasts exactly as long as none of those steps comes. */
  lemma {:induction false} CompletedIsStable(h: Log, m: nat, n: nat, id: string, request: Request)
    requires IsRun(h) && m <= n <= |h| && StillCompleted(Before(h, m), id, request)
    ensures Lasts(h, m, n, id, request) <==> Undisturbed(h, m, n, id)
    decreases n
  {
    if m < n {
      CompletedIsStable(h, m, n - 1, id, request);
      assert Follows(h, n - 1);
      assert Lasts(h, m, n, id, request) <==> Lasts(h, m, n - 1, id, request) && StillCompleted(Before(h, n), id, request);
      assert Undisturbed(h, m, n, id) <==> Undisturbed(h, m, n - 1, id) && !Undoes(h[n - 1].event, id);
      if StillCompleted(Before(h, n - 1), id, request) {
        CompletedSurvivesStepIff(Before(h, n - 1), h[n - 1].event, id, request);
      }
    }
  }

  ghost predicate NotDeleted(h: Log, from: nat, to: nat, id: string)
    requires to <= |h|
  {
    forall k | from <= k < to && h[k].event.id == id :: !h[k].event.Delete?
  }

  lemma {:induction false} RequestIsFixed(h: Log, m: nat, n: nat, id: string)
    requires IsRun(h) && m <= n <= |h| && id in Before(h, m) && NotDeleted(h, m, n, id)
    ensures id in Before(h, n) && Before(h, n)[id].request == Before(h, m)[id].request
    decreases n
  {
    if m < n {
      RequestIsFixed(h, m, n - 1, id);
      assert Follows(h, n - 1);
      if h[n - 1].event.id != id { OtherRowsStay(Before(h, n - 1), h[n - 1].event, id); }
    }
  }

  // One pass of a worker.

  /**
   * The steps at which a worker polled a job, read each entry of its `depends_on`, and listed its label group;
   * `cyclic` is what its search for a cycle answered, whatever tables that search saw.
   */
  datatype Pass = Pass(polled: nat, cyclic: bool, gets: seq<nat>, listed: nat)

  /** The job's request, as the worker got it from its poll. */
  function Polled(h: Log, w: Pass, id: string): Request
    requires w.polled <= |h| && id in Before(h, w.polled)
  {
    Before(h, w.polled)[id].request
  }

  ghost predicate Reads(h: Log, w: Pass, b: nat, entries: seq<string>) {
    && |w.gets| == |entries|
    && forall i | 0 <= i < |entries| && Strip(entries[i]) != "" ::
         w.polled <= w.gets[i] < b && w.gets[i] < |h| && h[w.gets[i]].event == Read(Strip(entries[i]))
  }

  /** The pass lies in the run, before step `b`: one `get` for each entry, one listing for a job with a group. */
  ghost predicate Happened(h: Log, w: Pass, b: nat, id: string) {
    && w.polled <= b <= |h| && id in Before(h, w.polled)
    && Reads(h, w, b, Polled(h, w, id).dependsOn)
    && (Polled(h, w, id).labelGroup != "" ==>
          w.polled <= w.listed < b && h[w.listed].event.Listing? && h[w.listed].event.id == id)
  }

  /** The table as each `get` saw it; an entry that is blank is not read. */
  ghost function Tables(h: Log, w: Pass): seq<Rows> {
    seq(|w.gets|, i requires 0 <= i < |w.gets| => if w.gets[i] <= |h| then Before(h, w.gets[i]) else map[])
  }

  /** Both gates open on what the pass read; a listing that raised opens the second by itself. */
  ghost predicate GatesOpen(h: Log, w: Pass, b: nat, id: string)
    requires Happened(h, w, b, id)
  {
    && GateReads(w.cyclic, Tables(h, w), Polled(h, w, id).dependsOn, id).Ready?
    && (|| Polled(h, w, id).labelGroup == "" || h[w.listed].event.raised
        || LabelReady(Before(h, w.listed), Polled(h, w, id), id))
  }

  /** Entry `i` was COMPLETED when it was read, and is so when the job starts unless a step in between undid it. */
  lemma DependencyIsDone(h: Log, w: Pass, b: nat, id: string, i: nat)
    requires IsRun(h) && b < |h| && Happened(h, w, b, id) && GatesOpen(h, w, b, id)
    requires i < |Polled(h, w, id).dependsOn| && Strip(Polled(h, w, id).dependsOn[i]) != ""
    requires h[b].event.Claim?
    ensures var d, r := Strip(Polled(h, w, id).dependsOn[i]), w.gets[i];
            && Done(Before(h, r), d)
            && (Undisturbed(h, r, b, d) ==> Done(h[b].rows, d))
  {
    var d, r, tables := Strip(Polled(h, w, id).dependsOn[i]), w.gets[i], Tables(h, w);
    ReadyReadsIff(w.cyclic, tables, Polled(h, w, id).dependsOn, id);
    assert EntryDone(tables[i], Polled(h, w, id).dependsOn[i], id);
    CompletedIsStable(h, r, b + 1, d, Before(h, r)[d].request);
    if Undisturbed(h, r, b, d) {
      assert Undisturbed(h, r, b + 1, d);
      assert StillCompleted(Before(h, b + 1), d, Before(h, r)[d].request);
    }
  }

  /** The same for an earlier-ranked peer that was there when the group was listed. */
  lemma PeerIsDone(h: Log, w: Pass, b: nat, id: string, q: string)
    requires IsRun(h) && b < |h| && Happened(h, w, b, id) && GatesOpen(h, w, b, id)
    requires Polled(h, w, id).labelGroup != "" && !h[w.listed].event.raised
    requires q in Before(h, w.listed) && Earlier(Polled(h, w, id), id, Peer(q, Before(h, w.listed)[q]))
    requires h[b].event.Claim?
    ensures Done(Before(h, w.listed), q)
    ensures Undisturbed(h, w.listed, b, q) ==> Done(h[b].rows, q)
  {
    CompletedIsStable(h, w.listed, b + 1, q, Before(h, w.listed)[q].request);
    if Undisturbed(h, w.listed, b, q) {
      assert Undisturbed(h, w.listed, b + 1, q);
      assert StillCompleted(Before(h, b + 1), q, Before(h, w.listed)[q].request);
    }
  }

  /**
   * Execution order. A worker reads each dependency by itself and lists the group once, all at different
   * moments, and claims the job at step `b`. Whatever other workers, clients and reclaims do in between, when
   * execution starts every dependency is COMPLETED that nothing undid since it was read, and, if the listing
   * did not raise, so is every earlier-ranked peer that it listed.
   */
  lemma ExecutionIsInOrder(h: Log, w: Pass, b: nat, id: string)
    requires IsRun(h) && b < |h| && Happened(h, w, b, id) && GatesOpen(h, w, b, id)
    requires h[b].event.Claim? && h[b].event.id == id && h[b].ok && NotDeleted(h, w.polled, b, id)
    ensures id in h[b].rows && h[b].rows[id].request == Polled(h, w, id)
    ensures var entries := h[b].rows[id].request.dependsOn;
            forall i | 0 <= i < |entries| && Strip(entries[i]) != "" && Undisturbed(h, w.gets[i], b, Strip(entries[i])) ::
              Done(h[b].rows, Strip(entries[i]))
    ensures var request := h[b].rows[id].request;
            request.labelGroup != "" && !h[w.listed].event.raised ==>
              forall q | q in Before(h, w.listed) && Earlier(request, id, Peer(q, Before(h, w.listed)[q])) &&
                         Undisturbed(h, w.listed, b, q) ::
                Done(h[b].rows, q)
  {
    var request := Polled(h, w, id);
    RequestIsFixed(h, w.polled, b + 1, id);
    forall i | 0 <= i < |request.dependsOn| && Strip(request.dependsOn[i]) != "" &&
               Undisturbed(h, w.gets[i], b, Strip(request.dependsOn[i]))
      ensures Done(h[b].rows, Strip(request.dependsOn[i]))
    {
      DependencyIsDone(h, w, b, id, i);
    }
    if request.labelGroup != "" && !h[w.listed].event.raised {
      forall q | q in Before(h, w.listed) && Earlier(request, id, Peer(q, Before(h, w.listed)[q])) &&
                 Undisturbed(h, w.listed, b, q)
        ensures Done(h[b].rows, q)
      {
        PeerIsDone(h, w, b, id, q);
      }
    }
  }

  function Labelled(jobLabel: string): Row {
    Fresh(Request([], jobLabel, "g", ["first", "second"], None, None), None, "t", None, None)
  }

  lemma RaisedLog(t: Stamp) returns (h: Log)
    ensures IsRun(h) && |h| == 4 && h[2].event == Listing("b", true) && h[3].event.Claim? && h[3].event.id == "b" && h[3].ok
    ensures Before(h, 2) == map["a" := Labelled("first"), "b" := Labelled("second")]
    ensures "a" in h[3].rows && h[3].rows["a"] == Labelled("first")
  {
    h := Logged([], Enqueue("a", Labelled("first")));
    h := Logged(h, Enqueue("b", Labelled("second")));
    assert Before(h, 2) == map["a" := Labelled("first"), "b" := Labelled("second")];
    h := Logged(h, Listing("b", true));
    h := Logged(h, Claim("b", t.time, t, t, 7));
  }

  /** One listing that raises starts a job ahead of a peer of its group that is still QUEUED. */
  lemma RaisedListingRunsAhead(t: Stamp) returns (h: Log, w: Pass)
    ensures IsRun(h) && |h| == 4 && Happened(h, w, 3, "b") && GatesOpen(h, w, 3, "b")
    ensures w.listed == 2 && h[2].event == Listing("b", true)
    ensures h[3].event.Claim? && h[3].event.id == "b" && h[3].ok
    ensures "a" in h[3].rows && Earlier(Polled(h, w, "b"), "b", Peer("a", h[3].rows["a"])) && h[3].rows["a"].status.Queued?
  {
    h := RaisedLog(t);
    w := Pass(2, false, [], 2);
    FirstIsEarlier(Labelled("second").request, "b", Peer("a", Labelled("first")));
  }
}
