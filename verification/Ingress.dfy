/** The crash-safe consumer: enqueue durably first, acknowledge after, with a crash or a failure between any two steps. */
module Ingress {
  import opened BridgeInput
  import opened JobTable
  import opened Jobs
  import Leases

  /** The row a bridge message was stored as: its own correlation id, and routing to match. */
  predicate Matches(rows: Rows, id: string, correlation: string) {
    id in rows && rows[id].correlationId == Some(correlation) && rows[id].request.bridgeCorrelation == Some(correlation)
  }

  ghost predicate Kept(rows: Rows, correlation: string) {
    exists id :: Matches(rows, id, correlation)
  }

  /** Only the bridge stores a correlation id, and always with its own routing. */
  ghost predicate BridgeRows(rows: Rows) {
    && UniqueKeys(rows)
    && forall id | id in rows && rows[id].correlationId.Some? :: rows[id].request.bridgeCorrelation == rows[id].correlationId
  }

  /** What everything else does to the table: rows stay, with their requests and keys, and new ones are not the bridge's. */
  ghost predicate Evolves(rows: Rows, next: Rows) {
    && UniqueKeys(next)
    && (forall id | id in rows :: id in next && next[id].request == rows[id].request && next[id].correlationId == rows[id].correlationId)
    && forall id | id in next && id !in rows :: next[id].correlationId.None?
  }

  lemma UpdateEvolves(rows: Rows, id: string, row: Row)
    requires BridgeRows(rows) && id in rows
    requires row.request == rows[id].request && row.correlationId == rows[id].correlationId && row.idempotencyKey == rows[id].idempotencyKey
    ensures Evolves(rows, rows[id := row])
  {
  }

  /** Claims, heartbeats, results, reclaims, requeues, marks and status updates are such steps. */
  lemma StoreStepsEvolve(rows: Rows, id: string, now: string, text: string, token: nat, result: Result)
    requires BridgeRows(rows) && id in rows
    ensures Evolves(rows, rows[id := Claimed(rows[id], now, text, token)]) && Evolves(rows, rows[id := Extended(rows[id], now, text)])
    ensures Evolves(rows, rows[id := Ended(rows[id], result, now)]) && Evolves(rows, rows[id := Recovered(rows[id], now)])
    ensures Evolves(rows, rows[id := Reset(rows[id], now)]) && Evolves(rows, rows[id := rows[id].(published := true)])
    ensures forall status :: Evolves(rows, rows[id := rows[id].(status := status, updatedAt := now)])
  {
    UpdateEvolves(rows, id, Claimed(rows[id], now, text, token));
    UpdateEvolves(rows, id, Extended(rows[id], now, text));
    UpdateEvolves(rows, id, Ended(rows[id], result, now));
    UpdateEvolves(rows, id, Recovered(rows[id], now));
    UpdateEvolves(rows, id, Reset(rows[id], now));
    UpdateEvolves(rows, id, rows[id].(published := true));
    forall status ensures Evolves(rows, rows[id := rows[id].(status := status, updatedAt := now)]) {
      UpdateEvolves(rows, id, rows[id].(status := status, updatedAt := now));
    }
  }

  /** So is a client's submission. */
  lemma SubmissionEvolves(rows: Rows, id: string, row: Row)
    requires BridgeRows(rows) && row.correlationId.None?
    ensures Evolves(rows, Inserted(rows, id, row))
  {
    InsertKeepsUniqueKeys(rows, id, row);
  }

  /** So every step of workers and clients is one, as long as no job is deleted and clients set no correlation id. */
  lemma RunStepsEvolve(rows: Rows, e: Leases.Event)
    requires BridgeRows(rows) && !e.Delete? && (e.Enqueue? ==> e.row.correlationId.None?)
    ensures Evolves(rows, Leases.Step(rows, e))
  {
    if !Leases.Succeeds(rows, e) {
    } else if e.Enqueue? {
      SubmissionEvolves(rows, e.id, e.row);
    } else {
      UpdateEvolves(rows, e.id, Leases.Changed(rows[e.id], e));
    }
  }

  function NewRow(job: Job, now: string): Row {
    Fresh(job.request, job.runAt, now, Some(job.correlation), job.request.idempotencyKey)
  }

  /** `enqueue` found or made the row `found`; a taken id is an error and no such step. */
  ghost predicate Enqueued(rows: Rows, next: Rows, id: string, job: Job, now: string, found: string) {
    if exists j :: j in rows && rows[j].correlationId == Some(job.correlation) then
      next == rows && found in rows && rows[found].correlationId == Some(job.correlation)
    else if job.request.idempotencyKey.Some? && exists j :: j in rows && rows[j].idempotencyKey == job.request.idempotencyKey then
      next == rows && found in rows && rows[found].idempotencyKey == job.request.idempotencyKey
    else
      id !in rows && next == rows[id := NewRow(job, now)] && found == id
  }

  lemma EnqueueKeepsRows(rows: Rows, next: Rows, id: string, job: Job, now: string, found: string)
    requires BridgeRows(rows) && Enqueued(rows, next, id, job, now, found)
    requires job.request.bridgeCorrelation == Some(job.correlation) && job.request.idempotencyKey.None?
    ensures BridgeRows(next) && Matches(next, found, job.correlation)
    ensures forall j | j in rows :: j in next && next[j] == rows[j]
  {
  }

  // The run: one stream with one consumer group, the consumer's thread, and the table.

  /** Where the consumer's thread is with entry `i`. */
  datatype Pc = Idle | Polled(i: nat) | Stored(i: nat, id: string) | DeadLettered(i: nat)

  /**
   * `log` is every entry ever added; those below `delivered` have been handed out, those in `pending` are
   * not acknowledged, those in `dead` are on the dead-letter stream. Only `recovered` and `pc` die in a crash.
   */
  datatype State = State(
    log: seq<Entry>, delivered: nat, pending: set<nat>, dead: set<nat>, rows: Rows, recovered: bool, pc: Pc)

  /** `seen` is false where the step took effect but its caller got an exception. */
  datatype Event =
    | Produced(entry: Entry) | Read(i: nat, seen: bool) | NothingNew
    | Enqueue(id: string, now: string, found: string, next: Rows, seen: bool)
    | DeadLetter(seen: bool) | Ack | Fails | Crash | StoreMoves(rows: Rows)

  ghost predicate Step(read: Entry -> Option<Job>, s: State, e: Event, t: State) {
    match e
    case Produced(entry) => t == s.(log := s.log + [entry])
    case Read(i, seen) =>
      && s.pc.Idle?
      && if !s.recovered && s.pending != {} then
           (i in s.pending && forall j | j in s.pending :: i <= j) && t == s.(pc := if seen then Polled(i) else Idle)
         else
           && i == s.delivered < |s.log|
           && t == s.(recovered := true, delivered := i + 1, pending := s.pending + {i}, pc := if seen then Polled(i) else Idle)
    case NothingNew => s.pc.Idle? && (s.recovered || s.pending == {}) && s.delivered == |s.log| && t == s.(recovered := true)
    case Enqueue(id, now, found, next, seen) =>
      && s.pc.Polled? && s.pc.i < |s.log| && read(s.log[s.pc.i]).Some?
      && Enqueued(s.rows, next, id, read(s.log[s.pc.i]).value, now, found)
      && t == s.(rows := next, pc := if seen then Stored(s.pc.i, found) else Idle)
    case DeadLetter(seen) => Rejected(read, s) && t == s.(dead := s.dead + {s.pc.i}, pc := if seen then DeadLettered(s.pc.i) else Idle)
    case Ack => Acknowledged(read, s) && t == s.(pending := s.pending - {s.pc.i}, pc := Idle)
    case Fails => t == s.(pc := Idle)
    case Crash => t == s.(pc := Idle, recovered := false)
    case StoreMoves(rows) => Evolves(s.rows, rows) && t == s.(rows := rows)
  }

  /** A poison message, or one whose row fails the checks after the enqueue. */
  ghost predicate Rejected(read: Entry -> Option<Job>, s: State) {
    (s.pc.Polled? || s.pc.Stored?) && s.pc.i < |s.log| &&
    match s.pc
    case Polled(i) => read(s.log[i]).None?
    case Stored(i, id) => read(s.log[i]).Some? && !Matches(s.rows, id, read(s.log[i]).value.correlation)
  }

  ghost predicate Acknowledged(read: Entry -> Option<Job>, s: State) {
    s.pc.DeadLettered?
    || (s.pc.Stored? && s.pc.i < |s.log| && read(s.log[s.pc.i]).Some? && Matches(s.rows, s.pc.id, read(s.log[s.pc.i]).value.correlation))
  }

  ghost predicate Path(read: Entry -> Option<Job>, states: seq<State>, events: seq<Event>) {
    && |states| == |events| + 1
    && forall k | 0 <= k < |events| :: Step(read, states[k], events[k], states[k + 1])
  }

  ghost predicate Run(read: Entry -> Option<Job>, states: seq<State>, events: seq<Event>) {
    Path(read, states, events) && states[0] == State([], 0, {}, {}, map[], false, Idle)
  }

  lemma PathGrows(read: Entry -> Option<Job>, states: seq<State>, events: seq<Event>, e: Event, t: State)
    requires Path(read, states, events) && Step(read, states[|states| - 1], e, t)
    ensures Path(read, states + [t], events + [e])
  {
  }

  lemma PathsJoin(read: Entry -> Option<Job>, states: seq<State>, events: seq<Event>, more: seq<State>, later: seq<Event>)
    requires Path(read, states, events) && Path(read, more, later) && states[|states| - 1] == more[0]
    ensures Path(read, states + more[1..], events + later)
  {
    var n, all, es := |events|, states + more[1..], events + later;
    forall k | 0 <= k < |es| ensures Step(read, all[k], es[k], all[k + 1]) {
      if k < n {
        assert all[k] == states[k] && all[k + 1] == states[k + 1] && es[k] == events[k];
      } else {
        assert all[k] == more[k - n] && all[k + 1] == more[k - n + 1] && es[k] == later[k - n];
      }
    }
  }

  /** The entry needs no more work: poison is dead-lettered, a job is in the table. */
  ghost predicate Settled(read: Entry -> Option<Job>, s: State, i: nat) {
    i < |s.log| && if read(s.log[i]).None? then i in s.dead else Kept(s.rows, read(s.log[i]).value.correlation)
  }

  ghost predicate AtPc(read: Entry -> Option<Job>, s: State) {
    match s.pc
    case Idle => true
    case Polled(i) => i in s.pending
    case Stored(i, id) =>
      i in s.pending && i < |s.log| && read(s.log[i]).Some? && Matches(s.rows, id, read(s.log[i]).value.correlation)
    case DeadLettered(i) => i in s.pending && i in s.dead
  }

  ghost predicate Inv(read: Entry -> Option<Job>, s: State) {
    && s.delivered <= |s.log| && BridgeRows(s.rows) && AtPc(read, s)
    && (forall i | i in s.pending :: i < s.delivered)
    && (forall i | i in s.dead :: i < s.delivered && read(s.log[i]).None?)
    && forall i: nat | i < s.delivered :: i in s.pending || Settled(read, s, i)
  }

  lemma MatchesStays(rows: Rows, next: Rows, id: string, correlation: string)
    requires Matches(rows, id, correlation)
    requires id in next && next[id].request == rows[id].request && next[id].correlationId == rows[id].correlationId
    ensures Matches(next, id, correlation)
  {
  }

  lemma KeptStays(rows: Rows, next: Rows, correlation: string)
    requires Kept(rows, correlation)
    requires forall id | id in rows :: id in next && next[id].request == rows[id].request && next[id].correlationId == rows[id].correlationId
    ensures Kept(next, correlation)
  {
    var id :| Matches(rows, id, correlation);
    MatchesStays(rows, next, id, correlation);
  }

  lemma SettledStays(read: Entry -> Option<Job>, s: State, t: State, i: nat)
    requires Settled(read, s, i) && s.log <= t.log && s.dead <= t.dead
    requires forall id | id in s.rows :: id in t.rows && t.rows[id].request == s.rows[id].request && t.rows[id].correlationId == s.rows[id].correlationId
    ensures Settled(read, t, i)
  {
    if read(s.log[i]).Some? { KeptStays(s.rows, t.rows, read(s.log[i]).value.correlation); }
  }

  /** Rows, dead letters and entries are never taken back. */
  lemma StepKeeps(read: Entry -> Option<Job>, s: State, e: Event, t: State)
    requires Step(read, s, e, t) && Inv(read, s) && Routed(read)
    ensures s.log <= t.log && s.dead <= t.dead && s.delivered <= t.delivered
    ensures forall id | id in s.rows :: id in t.rows && t.rows[id].request == s.rows[id].request && t.rows[id].correlationId == s.rows[id].correlationId
  {
    if e.Enqueue? {
      EnqueueKeepsRows(s.rows, e.next, e.id, read(s.log[s.pc.i]).value, e.now, e.found);
    }
  }

  /** Acknowledging comes last: an entry stops being pending only when it is settled. */
  lemma AckComesAfter(read: Entry -> Option<Job>, s: State, e: Event, t: State, i: nat)
    requires Step(read, s, e, t) && Inv(read, s) && i in s.pending && i !in t.pending
    ensures e.Ack? && s.pc.i == i && Settled(read, s, i)
  {
    if s.pc.Stored? { assert Matches(s.rows, s.pc.id, read(s.log[i]).value.correlation); }
  }

  /** The two safety checks after the enqueue never reject: no job is dead-lettered. */
  lemma ChecksNeverReject(read: Entry -> Option<Job>, s: State)
    requires Inv(read, s) && Rejected(read, s)
    ensures s.pc.Polled? && read(s.log[s.pc.i]).None?
  {
  }

  lemma StepKeepsInv(read: Entry -> Option<Job>, s: State, e: Event, t: State)
    requires Step(read, s, e, t) && Inv(read, s) && Routed(read)
    ensures Inv(read, t)
  {
    StepKeeps(read, s, e, t);
    forall i: nat | i < t.delivered ensures i in t.pending || Settled(read, t, i) {
      if i in s.pending && i !in t.pending {
        AckComesAfter(read, s, e, t, i);
      }
      if Settled(read, s, i) { SettledStays(read, s, t, i); }
    }
    match e {
      case Enqueue(id, now, found, next, seen) =>
        EnqueueKeepsRows(s.rows, next, id, read(s.log[s.pc.i]).value, now, found);
      case DeadLetter(seen) =>
        ChecksNeverReject(read, s);
      case StoreMoves(rows) =>
        if s.pc.Stored? { MatchesStays(s.rows, rows, s.pc.id, read(s.log[s.pc.i]).value.correlation); }
      case _ =>
    }
  }

  lemma {:induction false} InvHolds(read: Entry -> Option<Job>, states: seq<State>, events: seq<Event>, k: nat)
    requires Routed(read) && Run(read, states, events) && k < |states|
    ensures Inv(read, states[k])
  {
    if k > 0 {
      InvHolds(read, states, events, k - 1);
      StepKeepsInv(read, states[k - 1], events[k - 1], states[k]);
    }
  }

  /**
   * Nothing is lost and nothing doubled: at any point of any run each entry is undelivered, pending,
   * dead-lettered as poison, or in the table, where no correlation id has two rows.
   */
  lemma NothingLostOrDoubled(read: Entry -> Option<Job>, states: seq<State>, events: seq<Event>, k: nat, i: nat)
    requires Routed(read) && Run(read, states, events) && k < |states| && i < |states[k].log|
    ensures var s := states[k];
      || s.delivered <= i || i in s.pending
      || (if read(s.log[i]).None? then i in s.dead else Kept(s.rows, read(s.log[i]).value.correlation))
    ensures var s := states[k]; forall a, b, c | Matches(s.rows, a, c) && Matches(s.rows, b, c) :: a == b
    ensures i in states[k].dead ==> read(states[k].log[i]).None?
  {
    InvHolds(read, states, events, k);
    assert i < states[k].delivered && i !in states[k].pending ==> Settled(read, states[k], i);
  }

  /** Pending, and not in anyone's hands, in a consumer that has drained its list. */
  predicate Stuck(s: State, i: nat) {
    s.recovered && i in s.pending && (s.pc.Idle? || s.pc.i != i)
  }

  lemma StuckStays(read: Entry -> Option<Job>, s: State, e: Event, t: State, i: nat)
    requires Inv(read, s) && Step(read, s, e, t) && Stuck(s, i) && !e.Crash?
    ensures Stuck(t, i)
  {
  }

  /**
   * An entry whose handling failed is retried only after a restart: once the pending list has been drained,
   * it stays pending until the process crashes, however often the consumer polls.
   */
  lemma {:induction false} FailedEntryWaitsForRestart(
      read: Entry -> Option<Job>, states: seq<State>, events: seq<Event>, from: nat, k: nat, i: nat)
    requires Routed(read) && Run(read, states, events) && from <= k < |states|
    requires states[from].recovered && i in states[from].pending && states[from].pc.Idle?
    requires forall j | from <= j < k :: !events[j].Crash?
    ensures states[k].recovered && i in states[k].pending && (states[k].pc.Idle? || states[k].pc.i != i)
  {
    assert Stuck(states[from], i);
    if k > from {
      FailedEntryWaitsForRestart(read, states, events, from, k - 1, i);
      InvHolds(read, states, events, k - 1);
      assert Stuck(states[k - 1], i);
      StuckStays(read, states[k - 1], events[k - 1], states[k], i);
    }
  }

  ghost predicate CanReadAgain(read: Entry -> Option<Job>, s: State, i: nat) {
    exists e: Event, t :: e.Read? && e.i == i && Step(read, s, e, t)
  }

  /** An idle consumer takes the oldest pending entry again exactly when it has not drained the list since it started. */
  lemma OldestIsReadAgainIff(read: Entry -> Option<Job>, s: State, i: nat)
    requires Inv(read, s) && s.pc.Idle? && i in s.pending && forall j | j in s.pending :: i <= j
    ensures CanReadAgain(read, s, i) <==> !s.recovered
  {
    if !s.recovered {
      assert Step(read, s, Read(i, true), s.(pc := Polled(i)));
    }
  }

  /** A crash loses nothing but the consumer's place: from then on the oldest pending entry can be read again. */
  lemma CrashReopens(read: Entry -> Option<Job>, s: State, t: State, i: nat)
    requires Inv(read, s) && Step(read, s, Crash, t) && i in s.pending && forall j | j in s.pending :: i <= j
    ensures CanReadAgain(read, t, i)
    ensures t.log == s.log && t.delivered == s.delivered && t.pending == s.pending && t.dead == s.dead && t.rows == s.rows
  {
    assert Step(read, t, Read(i, true), t.(pc := Polled(i)));
  }

  /** A run that gets there: the first entry is read, its handling fails, and from then on nobody reads it. */
  lemma FailedEntryIsStuck(read: Entry -> Option<Job>, entry: Entry) returns (states: seq<State>, events: seq<Event>)
    requires Routed(read) && read(entry).Some?
    ensures Run(read, states, events) && |states| == 4
    ensures var s := states[3];
      && s.log == [entry] && s.recovered && s.pc.Idle? && 0 in s.pending && !CanReadAgain(read, s, 0)
      && !Settled(read, s, 0)
  {
    var s0 := State([], 0, {}, {}, map[], false, Idle);
    var s1 := s0.(log := [entry]);
    var s2 := s1.(recovered := true, delivered := 1, pending := {0}, pc := Polled(0));
    states := [s0, s1, s2, s2.(pc := Idle)];
    events := [Produced(entry), Read(0, true), Fails];
    assert Step(read, s0, events[0], s1) && Step(read, s1, events[1], s2);
    InvHolds(read, states, events, 3);
    OldestIsReadAgainIff(read, states[3], 0);
  }
}
