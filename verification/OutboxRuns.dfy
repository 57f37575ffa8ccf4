/** The outbox over whole runs: which steps can leave a job marked whose result the broker never got. */
module OutboxRuns {
  import opened IsoTime
  import opened Jobs
  import opened JobTable
  import Leases
  import opened Outbox
  import opened Text

  /** A publish under way: the result it was given, and whether the broker has confirmed it. */
  datatype Publish = Publish(id: string, result: Result, confirmed: bool)

  /**
   * The bridge's rows, every result that was ever stored in one, what the broker has accepted, the claims that
   * workers hold or have lost, the results that workers and the recovery are about to deliver, the publishes
   * under way, and the cancels between their two writes. The last four live in processes.
   */
  datatype State = State(
    rows: Rows, stored: set<(string, Result)>, accepted: set<(string, Result)>,
    workers: set<(string, nat)>, hands: set<(string, Result)>, flying: set<Publish>, cancels: multiset<string>)

  const START := State(map[], {}, {}, {}, {}, {}, multiset{})

  /**
   * `Lease` is a new job, a claim, a heartbeat or a reclaim. `Finish` is a worker's result that lands under its
   * token, `Refused` the FAILED result of a worker whose job raised and whose write the store refused: it is
   * delivered all the same. `Overwrite` is the untokened FAILED of a worker whose claim raised; that one
   * and the result of a cancel are delivered without a request, which publishes nothing.
   */
  datatype Event =
    | Lease(e: Leases.Event)
    | Finish(id: string, token: nat, result: Result, now: string)
    | Refused(id: string, token: nat, result: Result)
    | Recover(id: string)
    | Deliver(id: string, result: Result)
    | Produce(p: Publish, reached: bool, confirmed: bool)
    | Mark(p: Publish, done: bool)
    | CancelMark(id: string, now: string)
    | CancelWrite(id: string, result: Result, now: string)
    | Overwrite(id: string, result: Result, now: string)
    | Requeue(id: string, now: string)
    | Delete(id: string)
    | Crash(workers: set<(string, nat)>, hands: set<(string, Result)>, gone: set<Publish>, cut: multiset<string>)

  /** A new job of the bridge, under a UUID that nobody has used; or a step of a worker's lease. */
  ghost predicate LeaseEnabled(s: State, e: Leases.Event) {
    && Leases.WellFormed(e)
    && (e.Claim? || e.Heartbeat? || e.ReclaimRow?
        || (&& e.Enqueue? && !e.row.published && e.row.result.None? && e.row.correlationId.Some?
            && e.id !in s.cancels && forall p | p in s.flying :: p.id != e.id))
  }

  ghost predicate Enabled(s: State, e: Event) {
    match e
    case Lease(l) => LeaseEnabled(s, l)
    case Finish(id, token, result, _) => (id, token) in s.workers && Owns(s.rows, id, token) && result.status.Terminal()
    case Refused(id, token, result) => (id, token) in s.workers && !Owns(s.rows, id, token) && result.status.Failed?
    case Recover(id) => Listed(s.rows, id)
    case Deliver(id, result) => (id, result) in s.hands
    case Produce(p, reached, confirmed) => p in s.flying && !p.confirmed && (confirmed ==> reached)
    case Mark(p, _) => p in s.flying && p.confirmed
    case CancelMark(id, _) => id in s.rows
    case CancelWrite(id, result, _) => id in s.cancels && result.status.Cancelled?
    case Overwrite(id, result, _) => id in s.rows && result.status.Failed?
    case Requeue(id, _) => id in s.rows && s.rows[id].status.Terminal()
    case Delete(id) => id in s.rows
    case Crash(_, _, _, _) => true
  }

  /** A result is stored in the row. */
  function Storing(s: State, id: string, result: Result, now: string): State
    requires id in s.rows
  {
    s.(rows := s.rows[id := Ended(s.rows[id], result, now)], stored := s.stored + {(id, result)})
  }

  ghost function Next(s: State, e: Event): State
    requires Enabled(s, e)
  {
    match e
    case Lease(l) =>
      s.(rows := Leases.Step(s.rows, l),
         workers := if l.Claim? && Leases.Succeeds(s.rows, l) then s.workers + {(l.id, l.token)} else s.workers)
    case Finish(id, _, result, now) => Storing(s, id, result, now).(hands := s.hands + {(id, result)})
    case Refused(id, token, result) => s.(workers := s.workers - {(id, token)}, hands := s.hands + {(id, result)})
    case Recover(id) => s.(hands := s.hands + {(id, s.rows[id].result.value)})
    case Deliver(id, result) => s.(hands := s.hands - {(id, result)}, flying := s.flying + {Publish(id, result, false)})
    case Produce(p, reached, confirmed) =>
      s.(accepted := if reached then s.accepted + {(p.id, p.result)} else s.accepted,
         flying := s.flying - {p} + if confirmed then {p.(confirmed := true)} else {})
    case Mark(p, done) => s.(rows := if done then Marked(s.rows, p.id) else s.rows, flying := s.flying - {p})
    case CancelMark(id, now) =>
      s.(rows := s.rows[id := s.rows[id].(status := Cancelled, updatedAt := now)], cancels := s.cancels + multiset{id})
    case CancelWrite(id, result, now) =>
      (if id in s.rows then Storing(s, id, result, now) else s).(cancels := s.cancels - multiset{id})
    case Overwrite(id, result, now) => Storing(s, id, result, now)
    case Requeue(id, now) => s.(rows := s.rows[id := Reset(s.rows[id], now)])
    case Delete(id) => s.(rows := s.rows - {id})
    case Crash(workers, hands, gone, cut) =>
      s.(workers := s.workers - workers, hands := s.hands - hands, flying := s.flying - gone, cancels := s.cancels - cut)
  }

  /** The step of the jobs table that a step is, if it is one; the mark of a result is none of them. */
  function TableStep(e: Event, time: Instant): Option<Leases.Event> {
    match e
    case Lease(l) => Some(l)
    case Finish(id, token, result, now) => Some(Leases.Complete(id, Leases.Stamp(time, now), token, result))
    case CancelMark(id, now) => Some(Leases.CancelMark(id, Leases.Stamp(time, now)))
    case CancelWrite(id, result, now) => Some(Leases.Overwrite(id, Leases.Stamp(time, now), result))
    case Overwrite(id, result, now) => Some(Leases.Overwrite(id, Leases.Stamp(time, now), result))
    case Requeue(id, now) => Some(Leases.Requeue(id, Leases.Stamp(time, now), {Completed, Failed, Cancelled}))
    case Delete(id) => Some(Leases.Delete(id))
    case _ => None
  }

  /** The three writes of a result are steps of the jobs table. */
  lemma WritesAreTableSteps(s: State, e: Event, time: Instant)
    requires Enabled(s, e) && (e.Finish? || e.CancelWrite? || e.Overwrite?)
    ensures var w := TableStep(e, time);
            w.Some? && Leases.WellFormed(w.value) && Next(s, e).rows == Leases.Step(s.rows, w.value)
  {
  }

  /** The rows change only by steps of the jobs table and by marks. */
  lemma RowsTakeTableSteps(s: State, e: Event, time: Instant)
    requires Enabled(s, e)
    ensures var w := TableStep(e, time);
            if w.Some? then Leases.WellFormed(w.value) && Next(s, e).rows == Leases.Step(s.rows, w.value)
            else Next(s, e).rows == if e.Mark? && e.done then Marked(s.rows, e.p.id) else s.rows
  {
    if e.Finish? || e.CancelWrite? || e.Overwrite? { WritesAreTableSteps(s, e, time); }
  }

  /** What a lease step does to a row: nothing, or it stays open with its result and mark; or the row is new. */
  lemma LeaseStepRow(s: State, e: Leases.Event, id: string)
    requires LeaseEnabled(s, e) && id in Leases.Step(s.rows, e)
    ensures var row := Leases.Step(s.rows, e)[id];
            if id in s.rows then
              || row == s.rows[id]
              || (&& !s.rows[id].status.Terminal() && !row.status.Terminal() && row.result == s.rows[id].result
                  && row.published == s.rows[id].published && row.correlationId == s.rows[id].correlationId)
            else e.Enqueue? && e.id == id && row == e.row
    ensures s.rows.Keys <= Leases.Step(s.rows, e).Keys
  {
  }

  ghost predicate Runs(s: State, es: seq<Event>)
    decreases |es|
  {
    es == [] || (Enabled(s, es[0]) && Runs(Next(s, es[0]), es[1..]))
  }

  ghost function After(s: State, es: seq<Event>): State
    requires Runs(s, es)
    decreases |es|
  {
    if es == [] then s else After(Next(s, es[0]), es[1..])
  }

  /** The job is over, marked as published, the broker does not have its result, and nobody is left to send it. */
  ghost predicate Hidden(s: State, id: string) {
    && id in s.rows && s.rows[id].status.Terminal() && s.rows[id].published && s.hands == {} && s.flying == {}
    && s.rows[id].result.Some? && (id, s.rows[id].result.value) !in s.accepted
  }

  /** The job is over without a result, and no cancel is left to write one. */
  ghost predicate Dropped(s: State, id: string) {
    id in s.rows && s.rows[id].status.Terminal() && s.rows[id].result.None? && id !in s.cancels
  }

  /** What goes on without anyone asking for more: jobs run and end, publishes and cancels finish, processes stop. */
  predicate Quiet(e: Event) {
    (e.Lease? && !e.e.Enqueue?) || e.Finish? || e.Produce? || e.Mark? || e.CancelWrite? || (e.Crash? && e.cut == multiset{})
  }

  ghost predicate JustGoesOn(s: State, es: seq<Event>) {
    Runs(s, es) && forall e | e in es :: Quiet(e)
  }

  /** Some way of just going on from here ends with the result of `id` hidden behind its mark. */
  ghost predicate CanHide(s: State, id: string) {
    exists es :: JustGoesOn(s, es) && Hidden(After(s, es), id)
  }

  // What holds while no mark is wrong and no job is over without a result.

  /** A mark set for `result` would be right: the row is over with that result, or with one the broker has. */
  ghost predicate Backed(s: State, id: string, result: Result)
    requires id in s.rows
  {
    && s.rows[id].status.Terminal() && s.rows[id].result.Some? && id !in s.cancels
    && (s.rows[id].result.value == result || (id, s.rows[id].result.value) in s.accepted)
  }

  ghost predicate RowInv(s: State, id: string)
    requires id in s.rows
  {
    var row := s.rows[id];
    && row.correlationId.Some? && (!row.status.Terminal() ==> row.result.None?)
    && (row.published ==> row.status.Terminal() && row.result.Some? && (id, row.result.value) in s.accepted && id !in s.cancels)
    && (row.status.Terminal() && row.result.None? ==> id in s.cancels)
  }

  ghost predicate MarkInv(s: State) {
    && (forall id | id in s.rows :: RowInv(s, id))
    && forall p | p in s.flying :: (p.confirmed ==> (p.id, p.result) in s.accepted) && (p.id in s.rows ==> Backed(s, p.id, p.result))
  }

  ghost predicate NoPublish(s: State, id: string) {
    forall p | p in s.flying :: p.id != id
  }

  /**
   * The guard on marks: a delivery hands over what the row holds; a cancel writes to a job that is not published or
   * being published; so does any other overwrite, unless the broker has that result; a requeue comes when
   * no publish is under way; and no process stops between the two writes of a cancel.
   */
  ghost predicate MarkSound(s: State, e: Event)
    requires Enabled(s, e)
  {
    match e
    case Deliver(id, result) => id in s.rows ==> Backed(s, id, result)
    case CancelMark(id, _) => !s.rows[id].published && NoPublish(s, id)
    case Overwrite(id, result, _) =>
      || (id, result) in s.accepted
      || (!s.rows[id].published && forall p | p in s.flying && p.id == id :: p.result == result)
    case Requeue(id, _) => NoPublish(s, id)
    case Crash(_, _, _, cut) =>
      forall id | id in s.rows && s.rows[id].status.Terminal() && s.rows[id].result.None? :: id in s.cancels - cut
    case _ => true
  }

  lemma RowStaysInLease(s: State, l: Leases.Event, id: string)
    requires MarkInv(s) && LeaseEnabled(s, l) && id in Next(s, Lease(l)).rows
    ensures RowInv(Next(s, Lease(l)), id)
  {
    LeaseStepRow(s, l, id);
    assert id in s.rows ==> RowInv(s, id);
  }

  lemma RowStays(s: State, e: Event, id: string)
    requires MarkInv(s) && Enabled(s, e) && MarkSound(s, e) && id in Next(s, e).rows && !e.Lease?
    ensures RowInv(Next(s, e), id)
  {
    assert id in s.rows ==> RowInv(s, id);
    if e.Mark? && id == e.p.id { assert Backed(s, id, e.p.result); }
  }

  lemma FlightStays(s: State, e: Event, p: Publish)
    requires MarkInv(s) && Enabled(s, e) && MarkSound(s, e) && p in Next(s, e).flying
    ensures p.confirmed ==> (p.id, p.result) in Next(s, e).accepted
    ensures p.id in Next(s, e).rows ==> Backed(Next(s, e), p.id, p.result)
  {
    if e.Lease? && p.id in Next(s, e).rows { LeaseStepRow(s, e.e, p.id); }
    if p.id in s.rows {
      assert RowInv(s, p.id);
      assert p in s.flying ==> Backed(s, p.id, p.result);
      if e.Produce? && e.p.id == p.id { assert Backed(s, e.p.id, e.p.result); }
    }
  }

  lemma MarkSoundKeepsInv(s: State, e: Event)
    requires MarkInv(s) && Enabled(s, e) && MarkSound(s, e)
    ensures MarkInv(Next(s, e))
  {
    forall id | id in Next(s, e).rows ensures RowInv(Next(s, e), id) {
      if e.Lease? { RowStaysInLease(s, e.e, id); } else { RowStays(s, e, id); }
    }
    forall p | p in Next(s, e).flying
      ensures (p.confirmed ==> (p.id, p.result) in Next(s, e).accepted) && (p.id in Next(s, e).rows ==> Backed(Next(s, e), p.id, p.result))
    {
      FlightStays(s, e, p);
    }
  }

  lemma {:induction false} InvLosesNothing(s: State, es: seq<Event>)
    requires MarkInv(s) && JustGoesOn(s, es)
    ensures MarkInv(After(s, es))
    decreases |es|
  {
    if es != [] {
      assert Quiet(es[0]);
      QuietIsSound(s, es[0]);
      MarkSoundKeepsInv(s, es[0]);
      InvLosesNothing(Next(s, es[0]), es[1..]);
    }
  }

  lemma QuietIsSound(s: State, e: Event)
    requires MarkInv(s) && Enabled(s, e) && Quiet(e)
    ensures MarkSound(s, e)
  {
    if e.Crash? {
      forall id | id in s.rows && s.rows[id].status.Terminal() && s.rows[id].result.None? ensures id in s.cancels - e.cut {
        assert RowInv(s, id);
      }
    }
  }

  lemma InvNotHidden(s: State, id: string)
    requires MarkInv(s)
    ensures !Hidden(s, id) && !Dropped(s, id)
  {
    if id in s.rows { assert RowInv(s, id); }
  }

  lemma InvCannotHide(s: State, id: string)
    requires MarkInv(s)
    ensures !CanHide(s, id)
  {
    forall es | JustGoesOn(s, es) ensures !Hidden(After(s, es), id) {
      InvLosesNothing(s, es);
      InvNotHidden(After(s, es), id);
    }
  }

  // How a result gets hidden once the guard is broken.

  lemma StepCanHide(s: State, e: Event, id: string)
    requires Enabled(s, e) && Quiet(e) && CanHide(Next(s, e), id)
    ensures CanHide(s, id)
  {
    var es :| JustGoesOn(Next(s, e), es) && Hidden(After(Next(s, e), es), id);
    assert ([e] + es)[1..] == es;
    assert JustGoesOn(s, [e] + es) && Hidden(After(s, [e] + es), id);
  }

  /** Stopping the process now makes it final. */
  lemma StopHides(s: State, id: string)
    requires id in s.rows && s.rows[id].status.Terminal() && s.rows[id].published
    requires s.rows[id].result.Some? && (id, s.rows[id].result.value) !in s.accepted
    ensures CanHide(s, id)
  {
    var stop := Crash({}, s.hands, s.flying, multiset{});
    var t := Next(s, stop);
    assert JustGoesOn(t, []) && Hidden(After(t, []), id);
    StepCanHide(s, stop, id);
  }

  /** A body the broker has not seen yet. */
  lemma UnseenBody(seen: set<(string, Result)>) returns (body: string)
    ensures forall x | x in seen :: |x.1.body| < |body|
    decreases |seen|
  {
    if seen == {} {
      return "x";
    }
    var x :| x in seen;
    body := UnseenBody(seen - {x});
    if |body| <= |x.1.body| { body := x.1.body + "x"; }
  }

  lemma {:induction false} StrLeSelf(a: string)
    ensures StrLe(a, a)
  {
    if a != "" { StrLeSelf(a[1..]); }
  }

  lemma {:induction false} LongerIsLater(a: string)
    ensures StrLt(a, a + "x")
  {
    if a != "" {
      assert (a + "x")[1..] == a[1..] + "x";
      LongerIsLater(a[1..]);
    }
  }

  /** A claim that takes a QUEUED job: one that comes when the job is due. */
  lemma ClaimTakes(s: State, id: string) returns (e: Event)
    requires id in s.rows && s.rows[id].status.Queued?
    ensures Quiet(e) && Enabled(s, e)
    ensures var t := Next(s, e);
            && t == s.(rows := t.rows, workers := t.workers) && (id, 0) in t.workers && Owns(t.rows, id, 0)
            && t.rows[id].published == s.rows[id].published && t.rows[id].result == s.rows[id].result
  {
    var now := if s.rows[id].runAt.Some? then s.rows[id].runAt.value else "t";
    StrLeSelf(now);
    e := Lease(Leases.Claim(id, 0, Leases.Stamp(0, now), Leases.Stamp(0, now), 0));
  }

  /** A reclaim that frees a PROCESSING job: one that comes after its lease has expired. */
  lemma ReclaimFrees(s: State, id: string) returns (e: Event)
    requires id in s.rows && s.rows[id].status.Processing?
    ensures Quiet(e) && Enabled(s, e)
    ensures var t := Next(s, e);
            && t == s.(rows := t.rows) && id in t.rows && t.rows[id].status.Queued?
            && t.rows[id].published == s.rows[id].published && t.rows[id].result == s.rows[id].result
  {
    var expires := s.rows[id].leaseExpiresAt;
    var now := if expires.Some? then expires.value + "x" else "t";
    if expires.Some? { LongerIsLater(expires.value); }
    e := Lease(Leases.ReclaimRow(id, 0, Leases.Stamp(0, now)));
  }

  /** A row that is marked while its result is still to come. */
  lemma MarkedQueuedHides(s: State, id: string)
    requires id in s.rows && s.rows[id].published && s.rows[id].status.Queued?
    ensures CanHide(s, id)
  {
    var body := UnseenBody(s.accepted);
    var result := Result(Completed, body);
    assert (id, result) !in s.accepted;
    var claim := ClaimTakes(s, id);
    var t := Next(s, claim);
    var finish := Finish(id, 0, result, "t");
    StopHides(Next(t, finish), id);
    StepCanHide(t, finish, id);
    StepCanHide(s, claim, id);
  }

  lemma MarkedOpenHides(s: State, id: string)
    requires id in s.rows && s.rows[id].published && (id in s.cancels || !s.rows[id].status.Terminal())
    ensures CanHide(s, id)
  {
    if id in s.cancels {
      var body := UnseenBody(s.accepted);
      var result := Result(Cancelled, body);
      assert (id, result) !in s.accepted;
      var e := CancelWrite(id, result, "t");
      StopHides(Next(s, e), id);
      StepCanHide(s, e, id);
    } else if s.rows[id].status.Queued? {
      MarkedQueuedHides(s, id);
    } else {
      var e := ReclaimFrees(s, id);
      MarkedQueuedHides(Next(s, e), id);
      StepCanHide(s, e, id);
    }
  }

  lemma MarkHides(s: State, p: Publish)
    requires p in s.flying && p.confirmed && p.id in s.rows && !Backed(s, p.id, p.result) && !Dropped(s, p.id)
    ensures CanHide(s, p.id)
  {
    var e := Mark(p, true);
    var t := Next(s, e);
    if p.id in s.cancels || !s.rows[p.id].status.Terminal() {
      MarkedOpenHides(t, p.id);
    } else {
      StopHides(t, p.id);
    }
    StepCanHide(s, e, p.id);
  }

  /** A publish of something else than the row holds can end in a mark that hides the row's own result. */
  lemma UnbackedHides(s: State, p: Publish)
    requires p in s.flying && p.id in s.rows && !Backed(s, p.id, p.result) && !Dropped(s, p.id)
    ensures CanHide(s, p.id)
  {
    if p.confirmed {
      MarkHides(s, p);
    } else {
      var e := Produce(p, true, true);
      MarkHides(Next(s, e), p.(confirmed := true));
      StepCanHide(s, e, p.id);
    }
  }

  lemma UnsoundHides(s: State, e: Event)
    requires MarkInv(s) && Enabled(s, e) && !MarkSound(s, e) && !e.Crash?
    ensures (e.Deliver? || e.CancelMark? || e.Overwrite? || e.Requeue?) && CanHide(Next(s, e), e.id)
  {
    var t := Next(s, e);
    assert RowInv(s, e.id);
    match e {
      case Deliver(id, result) => UnbackedHides(t, Publish(id, result, false));
      case CancelMark(id, _) =>
        assert id in t.cancels;
        if s.rows[id].published {
          MarkedOpenHides(t, id);
        } else {
          var p :| p in s.flying && p.id == id;
          UnbackedHides(t, p);
        }
      case Overwrite(id, result, _) =>
        if s.rows[id].published {
          StopHides(t, id);
        } else {
          var p :| p in s.flying && p.id == id && p.result != result;
          UnbackedHides(t, p);
        }
      case Requeue(id, _) =>
        var p :| p in s.flying && p.id == id;
        UnbackedHides(t, p);
      case _ => assert false;
    }
  }

  // The steps of the code that break the guard.

  lemma TwoSteps(s: State, a: Event, b: Event)
    requires Enabled(s, a) && Enabled(Next(s, a), b)
    ensures Runs(s, [a, b]) && After(s, [a, b]) == Next(Next(s, a), b)
  {
    var t := Next(s, a);
    assert [a, b][1..] == [b] && [b][1..] == [];
    assert Runs(Next(t, b), []) && After(Next(t, b), []) == Next(t, b);
    assert Runs(t, [b]) && After(t, [b]) == Next(t, b);
  }

  /** Each of these steps can end with the result of its own job hidden, exactly when it breaks the guard. */
  lemma HidesIff(s: State, e: Event)
    requires MarkInv(s) && Enabled(s, e) && (e.Deliver? || e.CancelMark? || e.Overwrite? || e.Requeue?)
    ensures CanHide(Next(s, e), e.id) <==> !MarkSound(s, e)
  {
    if MarkSound(s, e) {
      MarkSoundKeepsInv(s, e);
      InvCannotHide(Next(s, e), e.id);
    } else {
      UnsoundHides(s, e);
    }
  }

  /** A requeue can hide the result of the rerun exactly when a publish of the job is under way. */
  lemma RequeueLosesResult(s: State, id: string, now: string)
    requires MarkInv(s) && id in s.rows && s.rows[id].status.Terminal()
    ensures CanHide(Next(s, Requeue(id, now)), id) <==> exists p :: p in s.flying && p.id == id
  {
    HidesIff(s, Requeue(id, now));
  }

  /**
   * A worker that lost its lease, and whose job raised, delivers its FAILED although the store refused it: that
   * can hide the result of whoever has the job now, or gets it.
   */
  lemma RefusedDeliveryLoses(s: State, id: string, token: nat, result: Result)
    requires MarkInv(s) && id in s.rows && !s.rows[id].status.Terminal() && result.status.Failed?
    requires (id, token) in s.workers && !Owns(s.rows, id, token)
    ensures var es := [Refused(id, token, result), Deliver(id, result)];
            Runs(s, es) && CanHide(After(s, es), id)
  {
    var refused, deliver := Refused(id, token, result), Deliver(id, result);
    var t := Next(s, refused);
    MarkSoundKeepsInv(s, refused);
    TwoSteps(s, refused, deliver);
    assert !Backed(t, id, result);
    HidesIff(t, deliver);
  }

  /** A requeue after a worker stored its result and before it delivers it. */
  lemma RequeueBeforeDeliveryLoses(s: State, id: string, result: Result, now: string)
    requires MarkInv(s) && id in s.rows && s.rows[id].status.Terminal() && (id, result) in s.hands && NoPublish(s, id)
    ensures Runs(s, [Requeue(id, now), Deliver(id, result)]) && CanHide(After(s, [Requeue(id, now), Deliver(id, result)]), id)
  {
    var requeue, deliver := Requeue(id, now), Deliver(id, result);
    var t := Next(s, requeue);
    MarkSoundKeepsInv(s, requeue);
    TwoSteps(s, requeue, deliver);
    assert !Backed(t, id, result);
    HidesIff(t, deliver);
  }

  /** A cancel whose read came before the result was stored and published: its own result is never sent. */
  lemma LateCancelLoses(s: State, id: string, now: string)
    requires MarkInv(s) && id in s.rows
    ensures CanHide(Next(s, CancelMark(id, now)), id) <==> s.rows[id].published || !NoPublish(s, id)
  {
    HidesIff(s, CancelMark(id, now));
  }

  /** A process that stops between the two writes of a cancel leaves a job that is over and has no result to list. */
  lemma CutCancelLoses(s: State, id: string, now: string)
    requires MarkInv(s) && id in s.rows && !s.rows[id].status.Terminal() && id !in s.cancels
    ensures var t := Next(s, CancelMark(id, now));
            MarkInv(t) && Dropped(Next(t, Crash({}, {}, {}, multiset{id})), id)
  {
    assert RowInv(s, id);
    MarkSoundKeepsInv(s, CancelMark(id, now));
    var t := Next(s, CancelMark(id, now));
    assert id !in t.cancels - multiset{id};
  }

  lemma {:induction false} OneMore(s: State, es: seq<Event>, e: Event)
    requires Runs(s, es) && Enabled(After(s, es), e)
    ensures Runs(s, es + [e]) && After(s, es + [e]) == Next(After(s, es), e)
    decreases |es|
  {
    if es == [] {
      assert es + [e] == [e] && [e][1..] == [];
    } else {
      assert (es + [e])[1..] == es[1..] + [e];
      OneMore(Next(s, es[0]), es[1..], e);
    }
  }

  // The publisher takes these steps.

  lemma ThreeSteps(s: State, a: Event, b: Event, c: Event)
    requires Enabled(s, a) && Enabled(Next(s, a), b) && Enabled(Next(Next(s, a), b), c)
    ensures Runs(s, [a, b, c]) && After(s, [a, b, c]) == Next(Next(Next(s, a), b), c)
  {
    TwoSteps(s, a, b);
    OneMore(s, [a, b], c);
    assert [a, b] + [c] == [a, b, c];
  }

  /** One delivery: the publisher's table and the broker's log go the way of the run, however its calls end. */
  method Publishes(publisher: Publisher, id: string, result: Result, a: Attempt, ghost s: State) returns (ok: bool, ghost es: seq<Event>)
    requires s.rows == publisher.store.rows && s.accepted == publisher.accepted && (id, result) in s.hands
    modifies publisher, publisher.store
    ensures es != [] && es[0] == Deliver(id, result) && Runs(s, es)
    ensures After(s, es).rows == publisher.store.rows && After(s, es).accepted == publisher.accepted
    ensures ok ==> (id, result) in publisher.accepted
  {
    ok := publisher.PublishNow(id, result, a);
    ghost var p := Publish(id, result, false);
    ghost var deliver := Deliver(id, result);
    if a.ProduceRaises? {
      es := [deliver, Produce(p, a.reached, false)];
      TwoSteps(s, deliver, Produce(p, a.reached, false));
    } else {
      ghost var mark := Mark(p.(confirmed := true), a.Delivered? || a.done);
      es := [deliver, Produce(p, true, true), mark];
      ThreeSteps(s, deliver, Produce(p, true, true), mark);
    }
  }

  /** What is listed can still get through: taken up by the recovery and published without a failure, it is accepted and marked. */
  lemma ListedGetsThrough(s: State, id: string) returns (es: seq<Event>)
    requires Listed(s.rows, id)
    ensures Runs(s, es) && (id, s.rows[id].result.value) in After(s, es).accepted
    ensures id in After(s, es).rows && After(s, es).rows[id] == s.rows[id].(published := true) && !Listed(After(s, es).rows, id)
    ensures forall j | j in s.rows && j != id :: j in After(s, es).rows && After(s, es).rows[j] == s.rows[j]
  {
    var result := s.rows[id].result.value;
    var p := Publish(id, result, false);
    var recover, deliver, produce, mark := Recover(id), Deliver(id, result), Produce(p, true, true), Mark(p.(confirmed := true), true);
    es := [recover, deliver, produce, mark];
    var s1 := Next(s, recover);
    ThreeSteps(s1, deliver, produce, mark);
    assert es[1..] == [deliver, produce, mark];
  }

  const JOB := Row(Queued, Request([], "", "", [], None, Some("c")), None, "t", None, None, None, Some("c"), None, false)

  /** The job as the store holds it for the worker with this token. */
  function Held(token: nat): Row {
    Claimed(JOB, "t", "t", token)
  }

  function ClaimBy(token: nat): Event {
    Lease(Leases.Claim("j", 0, Leases.Stamp(0, "t"), Leases.Stamp(0, "t"), token))
  }

  const FIRST := Result(Failed, "Unexpected worker error")
  const SECOND := Result(Completed, "output")
  const CLAIMS := [
    Lease(Leases.Enqueue("j", JOB)), ClaimBy(1), Lease(Leases.ReclaimRow("j", 0, Leases.Stamp(0, "tx"))), ClaimBy(2)]

  lemma ClaimedOnce()
    ensures Runs(START, CLAIMS[..2])
    ensures After(START, CLAIMS[..2]) == START.(rows := map["j" := Held(1)], workers := {("j", 1)})
  {
    var a, b := CLAIMS[0], CLAIMS[1];
    var s := START.(rows := map["j" := JOB]);
    assert Next(START, a) == s && Next(s, b) == START.(rows := map["j" := Held(1)], workers := {("j", 1)});
    TwoSteps(START, a, b);
    assert CLAIMS[..2] == [a, b];
  }

  lemma ClaimedTwice()
    ensures Runs(START, CLAIMS)
    ensures After(START, CLAIMS) == START.(rows := map["j" := Held(2)], workers := {("j", 1), ("j", 2)})
  {
    ClaimedOnce();
    var c, d := CLAIMS[2], CLAIMS[3];
    var t := After(START, CLAIMS[..2]);
    LongerIsLater("t");
    assert Next(t, c) == t.(rows := map["j" := Recovered(Held(1), "tx")]);
    OneMore(START, CLAIMS[..2], c);
    OneMore(START, CLAIMS[..2] + [c], d);
    assert CLAIMS[..2] + [c] + [d] == CLAIMS;
  }

  lemma FirstIsDelivered() returns (es: seq<Event>)
    ensures Runs(START, es) && |es| == 6
    ensures After(START, es) ==
            START.(rows := map["j" := Held(2)], workers := {("j", 2)}, flying := {Publish("j", FIRST, false)})
    ensures forall e | e in es :: !e.Requeue? && !e.CancelMark? && !e.CancelWrite? && !e.Overwrite? && !e.Delete?
  {
    ClaimedTwice();
    es := CLAIMS;
    var s := START.(rows := map["j" := Held(2)], workers := {("j", 2)});
    OneMore(START, es, Refused("j", 1, FIRST));
    es := es + [Refused("j", 1, FIRST)];
    assert After(START, es) == s.(hands := {("j", FIRST)});
    OneMore(START, es, Deliver("j", FIRST));
    es := es + [Deliver("j", FIRST)];
  }

  lemma FirstIsMarked() returns (es: seq<Event>)
    ensures Runs(START, es) && |es| == 8
    ensures After(START, es) ==
            START.(rows := map["j" := Held(2).(published := true)], workers := {("j", 2)}, accepted := {("j", FIRST)})
    ensures forall e | e in es :: !e.Requeue? && !e.CancelMark? && !e.CancelWrite? && !e.Overwrite? && !e.Delete?
  {
    var sent, known := Publish("j", FIRST, false), Publish("j", FIRST, true);
    es := FirstIsDelivered();
    var s := After(START, es);
    OneMore(START, es, Produce(sent, true, true));
    es := es + [Produce(sent, true, true)];
    assert After(START, es) == s.(flying := {known}, accepted := {("j", FIRST)});
    OneMore(START, es, Mark(known, true));
    es := es + [Mark(known, true)];
  }

  /**
   * A run without any requeue or cancel. The first worker's lease is reclaimed and the second worker claims the
   * job; the first one raises, and its FAILED is delivered and marked; then the second one's result lands.
   */
  lemma RefusedResultIsMarked() returns (es: seq<Event>)
    ensures Runs(START, es) && Hidden(After(START, es), "j") && |es| == 10
    ensures After(START, es).rows["j"].result == Some(SECOND) && After(START, es).accepted == {("j", FIRST)}
    ensures forall e | e in es :: !e.Requeue? && !e.CancelMark? && !e.CancelWrite? && !e.Overwrite? && !e.Delete?
  {
    es := FirstIsMarked();
    var s := After(START, es);
    OneMore(START, es, Finish("j", 2, SECOND, "t"));
    es := es + [Finish("j", 2, SECOND, "t")];
    var row := Ended(Held(2).(published := true), SECOND, "t");
    var t := s.(rows := map["j" := row], stored := {("j", SECOND)}, hands := {("j", SECOND)});
    assert After(START, es) == t;
    var stop := Crash({}, {("j", SECOND)}, {}, multiset{});
    OneMore(START, es, stop);
    es := es + [stop];
    assert After(START, es) == t.(hands := {});
  }
}
