/** The outbox over whole runs: which steps can lose a stored result, exactly. */
module OutboxLoss {
  import opened Jobs
  import opened JobTable
  import Leases
  import opened Outbox
  import opened OutboxRuns

  /** A result that was stored once, that the broker does not have, that no listing shows, and that nobody is left to send. */
  ghost predicate Missing(s: State, id: string, result: Result) {
    && (id, result) in s.stored && (id, result) !in s.accepted && s.hands == {} && s.flying == {}
    && !(Listed(s.rows, id) && s.rows[id].result == Some(result))
  }

  /** Some stored result is missing, or some job is over without any. */
  ghost predicate Lost(s: State) {
    (exists id, result :: Missing(s, id, result)) || (exists id :: Dropped(s, id))
  }

  /** Some way of just going on from here ends with a lost result. */
  ghost predicate CanLose(s: State) {
    exists es :: JustGoesOn(s, es) && Lost(After(s, es))
  }

  /** The row holds a result that the broker does not have. */
  predicate Unsent(s: State, id: string)
    requires id in s.rows
  {
    s.rows[id].result.Some? && (id, s.rows[id].result.value) !in s.accepted
  }

  ghost predicate Recorded(s: State) {
    forall id | id in s.rows && s.rows[id].result.Some? :: (id, s.rows[id].result.value) in s.stored
  }

  ghost predicate Kept(s: State, x: (string, Result)) {
    x in s.accepted || (x.0 in s.rows && s.rows[x.0].result == Some(x.1))
  }

  /** A cancel between its two writes is the only one of its job, and has nothing to overwrite. */
  ghost predicate CancelsAlone(s: State, id: string)
    requires id in s.rows
  {
    id in s.cancels ==> s.rows[id].status.Terminal() && !Unsent(s, id) && s.cancels[id] == 1
  }

  ghost predicate KeepInv(s: State) {
    Recorded(s) && (forall x | x in s.stored :: Kept(s, x)) && forall id | id in s.rows :: CancelsAlone(s, id)
  }

  ghost predicate Inv(s: State) {
    MarkInv(s) && KeepInv(s)
  }

  /**
   * The guard on results: a delete, a requeue and a cancel meet a job whose result the broker has, if it has one;
   * so does an overwrite, unless it writes the same; and none of the last three comes during a cancel.
   */
  ghost predicate Keeps(s: State, e: Event)
    requires Enabled(s, e)
  {
    match e
    case Delete(id) => !Unsent(s, id)
    case Requeue(id, _) => !Unsent(s, id) && id !in s.cancels
    case CancelMark(id, _) => !Unsent(s, id) && id !in s.cancels
    case Overwrite(id, result, _) =>
      && (Unsent(s, id) ==> s.rows[id].result == Some(result))
      && (id in s.cancels ==> (id, result) in s.accepted)
    case _ => true
  }

  ghost predicate Sound(s: State, e: Event)
    requires Enabled(s, e)
  {
    MarkSound(s, e) && Keeps(s, e)
  }

  lemma RecordedStays(s: State, e: Event)
    requires Recorded(s) && Enabled(s, e)
    ensures Recorded(Next(s, e))
  {
    if e.Lease? {
      forall id | id in Next(s, e).rows && Next(s, e).rows[id].result.Some?
        ensures (id, Next(s, e).rows[id].result.value) in s.stored
      {
        LeaseStepRow(s, e.e, id);
      }
    }
  }

  lemma KeptStays(s: State, e: Event, x: (string, Result))
    requires Inv(s) && Enabled(s, e) && Sound(s, e) && x in Next(s, e).stored
    ensures Kept(Next(s, e), x)
  {
    if x in s.stored {
      assert Kept(s, x);
      if x.0 in s.rows { assert CancelsAlone(s, x.0); }
      if e.Lease? && x.0 in s.rows {
        LeaseStepRow(s, e.e, x.0);
      }
    }
  }

  lemma CancelsStayAloneInLease(s: State, l: Leases.Event, id: string)
    requires Inv(s) && LeaseEnabled(s, l) && id in Next(s, Lease(l)).rows
    ensures CancelsAlone(Next(s, Lease(l)), id)
  {
    LeaseStepRow(s, l, id);
    if id in s.rows { assert CancelsAlone(s, id); }
  }

  lemma CancelsStayAlone(s: State, e: Event, id: string)
    requires Inv(s) && Enabled(s, e) && Sound(s, e) && id in Next(s, e).rows && !e.Lease?
    ensures CancelsAlone(Next(s, e), id)
  {
    assert CancelsAlone(s, id) && RowInv(s, id);
  }

  lemma SoundKeepsInv(s: State, e: Event)
    requires Inv(s) && Enabled(s, e) && Sound(s, e)
    ensures Inv(Next(s, e))
  {
    MarkSoundKeepsInv(s, e);
    RecordedStays(s, e);
    forall x | x in Next(s, e).stored ensures Kept(Next(s, e), x) { KeptStays(s, e, x); }
    forall id | id in Next(s, e).rows ensures CancelsAlone(Next(s, e), id) {
      if e.Lease? { CancelsStayAloneInLease(s, e.e, id); } else { CancelsStayAlone(s, e, id); }
    }
  }

  lemma {:induction false} InvGoesOn(s: State, es: seq<Event>)
    requires Inv(s) && JustGoesOn(s, es)
    ensures Inv(After(s, es))
    decreases |es|
  {
    if es != [] {
      assert Quiet(es[0]);
      QuietIsSound(s, es[0]);
      SoundKeepsInv(s, es[0]);
      InvGoesOn(Next(s, es[0]), es[1..]);
    }
  }

  lemma InvNotLost(s: State)
    requires Inv(s)
    ensures !Lost(s)
  {
    forall id, result ensures !Missing(s, id, result) {
      if (id, result) in s.stored {
        assert Kept(s, (id, result));
        if id in s.rows { assert RowInv(s, id); }
      }
    }
    forall id ensures !Dropped(s, id) { InvNotHidden(s, id); }
  }

  lemma InvCannotLose(s: State)
    requires Inv(s)
    ensures !CanLose(s)
  {
    forall es | JustGoesOn(s, es) ensures !Lost(After(s, es)) {
      InvGoesOn(s, es);
      InvNotLost(After(s, es));
    }
  }

  // How a result gets lost once the guard is broken.

  lemma StepCanLose(s: State, e: Event)
    requires Enabled(s, e) && Quiet(e) && CanLose(Next(s, e))
    ensures CanLose(s)
  {
    var es :| JustGoesOn(Next(s, e), es) && Lost(After(Next(s, e), es));
    assert ([e] + es)[1..] == es;
    assert JustGoesOn(s, [e] + es) && Lost(After(s, [e] + es));
  }

  lemma {:induction false} RecordedGoesOn(s: State, es: seq<Event>)
    requires Recorded(s) && Runs(s, es)
    ensures Recorded(After(s, es))
    decreases |es|
  {
    if es != [] {
      RecordedStays(s, es[0]);
      RecordedGoesOn(Next(s, es[0]), es[1..]);
    }
  }

  /** What is hidden behind its mark is missing. */
  lemma HidingLoses(s: State, id: string)
    requires Recorded(s) && CanHide(s, id)
    ensures CanLose(s)
  {
    var es :| JustGoesOn(s, es) && Hidden(After(s, es), id);
    RecordedGoesOn(s, es);
    var t := After(s, es);
    assert Missing(t, id, t.rows[id].result.value);
  }

  /** A stored result that its row no longer holds is missing once the process stops. */
  lemma StopMisses(s: State, id: string, result: Result)
    requires (id, result) in s.stored && (id, result) !in s.accepted
    requires !(id in s.rows && s.rows[id].result == Some(result))
    ensures CanLose(s)
  {
    var stop := Crash({}, s.hands, s.flying, multiset{});
    var t := Next(s, stop);
    assert Missing(t, id, result);
    assert JustGoesOn(t, []) && Lost(After(t, []));
    StepCanLose(s, stop);
  }

  /** A cancel about to write over a result that the broker does not have. */
  lemma PendingCancelLoses(s: State, id: string)
    requires id in s.rows && id in s.cancels && Unsent(s, id) && (id, s.rows[id].result.value) in s.stored
    ensures CanLose(s)
  {
    var old' := s.rows[id].result.value;
    var e := CancelWrite(id, Result(Cancelled, old'.body + "x"), "t");
    assert Result(Cancelled, old'.body + "x").body != old'.body;
    StopMisses(Next(s, e), id, old');
    StepCanLose(s, e);
  }

  /** Two cancels of one job, both between their writes: the second writes over the first one's result. */
  lemma TwoCancelsLose(s: State, id: string)
    requires id in s.rows && s.cancels[id] >= 2
    ensures CanLose(s)
  {
    var body := UnseenBody(s.accepted);
    var e := CancelWrite(id, Result(Cancelled, body), "t");
    assert (id, Result(Cancelled, body)) !in s.accepted;
    PendingCancelLoses(Next(s, e), id);
    StepCanLose(s, e);
  }

  /** A job that was requeued during a cancel: the cancel writes over the rerun's result. */
  lemma RequeuedCancelLoses(s: State, id: string)
    requires id in s.rows && s.rows[id].status.Queued? && id in s.cancels
    ensures CanLose(s)
  {
    var body := UnseenBody(s.accepted);
    var result := Result(Completed, body);
    assert (id, result) !in s.accepted;
    var claim := ClaimTakes(s, id);
    var t := Next(s, claim);
    var finish := Finish(id, 0, result, "t");
    PendingCancelLoses(Next(t, finish), id);
    StepCanLose(t, finish);
    StepCanLose(s, claim);
  }

  lemma UnkeptLoses(s: State, e: Event)
    requires Inv(s) && Enabled(s, e) && !Keeps(s, e)
    ensures CanLose(Next(s, e))
  {
    var t, id := Next(s, e), e.id;
    assert CancelsAlone(s, id);
    if e.CancelMark? {
      if Unsent(s, id) { PendingCancelLoses(t, id); } else { TwoCancelsLose(t, id); }
    } else if e.Overwrite? && id in s.cancels && (id, e.result) !in s.accepted {
      PendingCancelLoses(t, id);
    } else if Unsent(s, id) {
      StopMisses(t, id, s.rows[id].result.value);
    } else {
      RequeuedCancelLoses(t, id);
    }
  }

  lemma UnsoundCanLose(s: State, e: Event)
    requires Inv(s) && Enabled(s, e) && !Sound(s, e)
    ensures CanLose(Next(s, e))
  {
    var t := Next(s, e);
    if !Keeps(s, e) {
      UnkeptLoses(s, e);
    } else if e.Crash? {
      var id :| id in s.rows && s.rows[id].status.Terminal() && s.rows[id].result.None? && id !in s.cancels - e.cut;
      assert Dropped(t, id);
      assert JustGoesOn(t, []) && Lost(After(t, []));
    } else {
      UnsoundHides(s, e);
      RecordedStays(s, e);
      HidingLoses(t, e.id);
    }
  }

  /**
   * The outbox, exactly. While no stored result can be lost, a step keeps it so if and only if both guards hold:
   * a step that breaks one leaves a state from which merely going on ends with a stored result that is neither
   * with the broker nor listed nor on its way, or with a job that is over without a result.
   */
  lemma SoundIff(s: State, e: Event)
    requires Inv(s) && Enabled(s, e)
    ensures Sound(s, e) <==> !CanLose(Next(s, e))
    ensures Sound(s, e) <==> Inv(Next(s, e))
  {
    if Sound(s, e) {
      SoundKeepsInv(s, e);
      InvCannotLose(Next(s, e));
    } else {
      UnsoundCanLose(s, e);
      if Inv(Next(s, e)) { InvCannotLose(Next(s, e)); }
    }
  }

  ghost predicate AllSound(s: State, es: seq<Event>)
    requires Runs(s, es)
    decreases |es|
  {
    es == [] || (Sound(s, es[0]) && AllSound(Next(s, es[0]), es[1..]))
  }

  /** At no point of the run can a result be lost. */
  ghost predicate NeverLoses(s: State, es: seq<Event>)
    requires Runs(s, es)
    decreases |es|
  {
    !CanLose(s) && (es == [] || NeverLoses(Next(s, es[0]), es[1..]))
  }

  lemma {:induction false} RunIsSafeFrom(s: State, es: seq<Event>)
    requires Inv(s) && Runs(s, es)
    ensures AllSound(s, es) <==> NeverLoses(s, es)
    ensures AllSound(s, es) ==> Inv(After(s, es))
    decreases |es|
  {
    InvCannotLose(s);
    if es != [] {
      SoundIff(s, es[0]);
      if Sound(s, es[0]) { RunIsSafeFrom(Next(s, es[0]), es[1..]); }
    }
  }

  /** A run from the empty table loses nothing, and cannot, exactly when every step of it keeps to the guards. */
  lemma RunIsSafeIff(es: seq<Event>)
    requires Runs(START, es)
    ensures AllSound(START, es) <==> NeverLoses(START, es)
  {
    RunIsSafeFrom(START, es);
  }

  /** In such a run the broker has every result that was ever stored, or it is in its row and listed for recovery. */
  lemma StoredIsAcceptedOrListed(es: seq<Event>, id: string, result: Result)
    requires Runs(START, es) && AllSound(START, es) && (id, result) in After(START, es).stored
    ensures var s := After(START, es);
            (id, result) in s.accepted || (id in Backlog(s.rows) && s.rows[id].result == Some(result))
  {
    RunIsSafeFrom(START, es);
    var s := After(START, es);
    assert Kept(s, (id, result));
    if id in s.rows { assert RowInv(s, id); }
  }

  /**
   * And of the jobs: the broker has the result of every job marked published, and every other job that is over
   * is listed, unless a cancel is about to write its result.
   */
  lemma MarkedWasAccepted(es: seq<Event>, id: string)
    requires Runs(START, es) && AllSound(START, es)
    requires id in After(START, es).rows && After(START, es).rows[id].status.Terminal()
    ensures var s := After(START, es);
            && (s.rows[id].result.Some? || id in s.cancels)
            && (s.rows[id].published ==> s.rows[id].result.Some? && (id, s.rows[id].result.value) in s.accepted)
            && (!s.rows[id].published && s.rows[id].result.Some? ==> id in Backlog(s.rows))
  {
    RunIsSafeFrom(START, es);
    assert RowInv(After(START, es), id);
  }

  // Discarding.

  /** The broker has the result, or somebody is about to send it. */
  ghost predicate Carried(s: State, id: string, result: Result) {
    (id, result) in s.accepted || (id, result) in s.hands || exists p :: p in s.flying && p.id == id && p.result == result
  }

  /** The step drops the last copy of a stored result. */
  ghost predicate Discards(s: State, e: Event, id: string)
    requires Enabled(s, e)
  {
    && id in s.rows && s.rows[id].result.Some? && !Carried(Next(s, e), id, s.rows[id].result.value)
    && !(id in Next(s, e).rows && Next(s, e).rows[id].result == s.rows[id].result)
  }

  /**
   * A step discards a result exactly when it is a delete, a requeue, an overwrite with another result or the
   * second write of a cancel, on a job whose result is neither with the broker nor on its way.
   */
  lemma DiscardsIff(s: State, e: Event, id: string)
    requires MarkInv(s) && Enabled(s, e)
    ensures Discards(s, e, id) <==>
            && (e.Delete? || e.Requeue? || e.Overwrite? || e.CancelWrite?) && e.id == id
            && id in s.rows && s.rows[id].result.Some? && !Carried(s, id, s.rows[id].result.value)
            && (e.Overwrite? || e.CancelWrite? ==> e.result != s.rows[id].result.value)
  {
    if id in s.rows { assert RowInv(s, id); }
    if e.Lease? && id in s.rows { LeaseStepRow(s, e.e, id); }
  }

  /** Removing a job, as `remove` and `clear` do, can lose its result exactly when the broker does not have it. */
  lemma DeleteLosesIff(s: State, id: string)
    requires Inv(s) && id in s.rows
    ensures CanLose(Next(s, Delete(id))) <==> Unsent(s, id)
  {
    SoundIff(s, Delete(id));
  }
}
