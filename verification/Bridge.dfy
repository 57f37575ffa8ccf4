/** The consumer as the bridge runs it: the Redis stream transport, and the handling of one message. */
module Bridge {
  import opened BridgeInput
  import opened Ingress
  import opened JobTable
  import opened Jobs

  /** A call that works, one that raises without any effect, and one that raises after its effect. */
  datatype Fault = Works | RaisesBefore | RaisesAfter

  class RedisStreamsTransport {
    var log: seq<Entry>
    var delivered: nat
    var pending: set<nat>
    var dead: set<nat>
    var recovered: bool

    ghost predicate Valid()
      reads this
    {
      delivered <= |log| && forall i | i in pending :: i < delivered
    }

    constructor ()
      ensures Valid() && log == [] && delivered == 0 && pending == {} && dead == {} && !recovered
    {
      log, delivered, pending, dead, recovered := [], 0, {}, {}, false;
    }

    /** The least entry of a non-empty set. */
    method Oldest(among: set<nat>) returns (least: nat)
      requires among != {}
      ensures least in among && forall j | j in among :: least <= j
    {
      least :| least in among;
      var left := among - {least};
      while left != {}
        invariant left <= among && least in among
        invariant forall j | j in among && j !in left :: least <= j
      {
        var j :| j in left;
        if j < least {
          least := j;
        }
        left := left - {j};
      }
    }

    /** After a start the pending entries come first, then the new ones. */
    method Poll() returns (i: Option<nat>)
      requires Valid()
      modifies this`delivered, this`pending, this`recovered
      ensures Valid()
      ensures if !old(recovered) && old(pending) != {} then
                && i.Some? && i.value in old(pending) && (forall j | j in old(pending) :: i.value <= j)
                && delivered == old(delivered) && pending == old(pending) && !recovered
              else if old(delivered) < |log| then
                i == Some(old(delivered)) && delivered == old(delivered) + 1 && pending == old(pending) + {old(delivered)} && recovered
              else
                i == None && delivered == old(delivered) && pending == old(pending) && recovered
    {
      if !recovered {
        if pending != {} {
          var oldest := Oldest(pending);
          return Some(oldest);
        }
        recovered := true;
      }
      if delivered == |log| {
        return None;
      }
      pending := pending + {delivered};
      delivered := delivered + 1;
      return Some(delivered - 1);
    }

    method Ack(i: nat, fault: Fault) returns (ok: bool)
      modifies this`pending
      ensures ok == fault.Works? && pending == if fault.RaisesBefore? then old(pending) else old(pending) - {i}
    {
      if !fault.RaisesBefore? {
        pending := pending - {i};
      }
      return fault.Works?;
    }

    /** Dead-letters first; only if that worked is the entry acknowledged. */
    method Nack(i: nat, add: Fault, ack: Fault) returns (ok: bool)
      modifies this`pending, this`dead
      ensures dead == if add.RaisesBefore? then old(dead) else old(dead) + {i}
      ensures pending == if !add.Works? || ack.RaisesBefore? then old(pending) else old(pending) - {i}
      ensures ok == (add.Works? && ack.Works?)
    {
      if !add.RaisesBefore? {
        dead := dead + {i};
      }
      if !add.Works? {
        return false;
      }
      ok := Ack(i, ack);
    }
  }

  class MessageBridge {
    const store: SQLiteJobStore
    const transport: RedisStreamsTransport

    constructor (store: SQLiteJobStore, transport: RedisStreamsTransport)
      ensures this.store == store && this.transport == transport
    {
      this.store, this.transport := store, transport;
    }

    /** The state of the protocol that the objects are in. */
    ghost function At(pc: Pc): State
      reads this, store, transport
    {
      State(transport.log, transport.delivered, transport.pending, transport.dead, store.rows, transport.recovered, pc)
    }

    /** `_safe_ack` and `_safe_nack` swallow what the transport raises. */
    method SafeNack(i: nat, read: Entry -> Option<Job>, add: Fault, ack: Fault) returns (ghost states: seq<State>, ghost events: seq<Event>)
      requires i < |transport.log| && read(transport.log[i]).None?
      modifies transport`pending, transport`dead
      ensures transport.dead == if add.RaisesBefore? then old(transport.dead) else old(transport.dead) + {i}
      ensures transport.pending == if !add.Works? || ack.RaisesBefore? then old(transport.pending) else old(transport.pending) - {i}
      ensures Path(read, states, events) && states[0] == old(At(Polled(i))) && states[|states| - 1] == At(Idle)
    {
      ghost var s := At(Polled(i));
      var _ := transport.Nack(i, add, ack);
      if add.RaisesBefore? {
        states, events := [s, At(Idle)], [Fails];
        return;
      }
      states, events := [s, s.(dead := s.dead + {i}, pc := if add.Works? then DeadLettered(i) else Idle)], [DeadLetter(add.Works?)];
      if add.Works? {
        PathGrows(read, states, events, if ack.RaisesBefore? then Fails else Event.Ack, At(Idle));
        states, events := states + [At(Idle)], events + [if ack.RaisesBefore? then Fails else Event.Ack];
      }
    }

    /** The durable enqueue; nothing is returned when it raises, before or after its effect, or for a taken id. */
    method EnqueueEntry(i: nat, read: Entry -> Option<Job>, id: string, now: string, enqueue: Fault)
      returns (stored: Option<string>, ghost states: seq<State>, ghost events: seq<Event>)
      requires Routed(read) && i < |transport.log| && read(transport.log[i]).Some? && BridgeRows(store.rows)
      modifies store
      ensures BridgeRows(store.rows)
      ensures Path(read, states, events) && states[0] == old(At(Polled(i)))
      ensures states[|states| - 1] == At(if stored.Some? then Stored(i, stored.value) else Idle)
      ensures var job := read(transport.log[i]).value;
        && store.rows == (if enqueue.RaisesBefore? then old(store.rows) else Inserted(old(store.rows), id, NewRow(job, now)))
        && (stored.None? <==> !enqueue.Works? || (id in old(store.rows) && !KeyTaken(old(store.rows), Some(job.correlation), None)))
        && (stored.Some? ==> Matches(store.rows, stored.value, job.correlation))
    {
      var job := read(transport.log[i]).value;
      ghost var s := At(Polled(i));
      if enqueue.RaisesBefore? {
        return None, [s, At(Idle)], [Fails];
      }
      ghost var before := store.rows;
      stored := store.Enqueue(id, job.request, job.runAt, now, Some(job.correlation), job.request.idempotencyKey);
      StoredMatches(before, id, job, now);
      if stored.None? {
        return None, [s, At(Idle)], [Fails];
      }
      assert Enqueued(before, store.rows, id, job, now, stored.value);
      EnqueueKeepsRows(before, store.rows, id, job, now, stored.value);
      ghost var enqueued := Event.Enqueue(id, now, stored.value, store.rows, enqueue.Works?);
      if enqueue.RaisesAfter? {
        return None, [s, At(Idle)], [enqueued];
      }
      return stored, [s, At(Stored(i, stored.value))], [enqueued];
    }

    /** A message that is understood: enqueue, two checks on the row, acknowledge. */
    method StoreMessage(i: nat, read: Entry -> Option<Job>, id: string, now: string, enqueue: Fault, get: Fault, ack: Fault)
      returns (raised: bool, ghost states: seq<State>, ghost events: seq<Event>)
      requires Routed(read) && i < |transport.log| && read(transport.log[i]).Some? && BridgeRows(store.rows)
      modifies store, transport`pending
      ensures BridgeRows(store.rows)
      ensures Path(read, states, events) && states[0] == old(At(Polled(i))) && states[|states| - 1] == At(Idle)
      ensures var job := read(transport.log[i]).value;
        && store.rows == (if enqueue.RaisesBefore? then old(store.rows) else Inserted(old(store.rows), id, NewRow(job, now)))
        && (raised <==> || !enqueue.Works? || !get.Works?
                        || (id in old(store.rows) && !KeyTaken(old(store.rows), Some(job.correlation), None)))
        && (!raised ==> Kept(store.rows, job.correlation))
        && transport.pending == if raised || ack.RaisesBefore? then old(transport.pending) else old(transport.pending) - {i}
    {
      var job := read(transport.log[i]).value;
      var stored;
      stored, states, events := EnqueueEntry(i, read, id, now, enqueue);
      if stored.None? {
        return true, states, events;
      }
      if !get.Works? {
        PathGrows(read, states, events, Fails, At(Idle));
        return true, states + [At(Idle)], events + [Fails];
      }
      var rows := store.rows;
      if stored.value !in rows || rows[stored.value].correlationId != Some(job.correlation) {
        // The first safety reject.
        assert false;
      }
      if rows[stored.value].request.bridgeCorrelation != Some(job.correlation) {
        // The second.
        assert false;
      }
      var _ := transport.Ack(i, ack);
      ghost var last := if ack.RaisesBefore? then Fails else Event.Ack;
      PathGrows(read, states, events, last, At(Idle));
      return false, states + [At(Idle)], events + [last];
    }

    /**
     * One message. `id` is the new job id, the faults are those of the calls it makes. Poison is
     * dead-lettered and never stored; anything else is stored before it is acknowledged, and never dead-lettered.
     * Whatever fails, it goes the way of the protocol.
     */
    method HandleMessage(i: nat, read: Entry -> Option<Job>, id: string, now: string, enqueue: Fault, get: Fault, add: Fault, ack: Fault)
      returns (raised: bool, ghost states: seq<State>, ghost events: seq<Event>)
      requires Routed(read) && i < |transport.log| && BridgeRows(store.rows)
      modifies store, transport`pending, transport`dead
      ensures BridgeRows(store.rows)
      ensures Path(read, states, events) && states[0] == old(At(Polled(i))) && states[|states| - 1] == At(Idle)
      ensures var job := read(transport.log[i]);
        if job.None? then
          && !raised && store.rows == old(store.rows)
          && transport.dead == (if add.RaisesBefore? then old(transport.dead) else old(transport.dead) + {i})
          && (i in old(transport.pending) && i !in transport.pending ==> i in transport.dead)
        else
          && transport.dead == old(transport.dead)
          && store.rows == (if enqueue.RaisesBefore? then old(store.rows) else Inserted(old(store.rows), id, NewRow(job.value, now)))
          && (i in old(transport.pending) && i !in transport.pending ==> Kept(store.rows, job.value.correlation))
          && (enqueue.Works? && get.Works? && !raised ==> Kept(store.rows, job.value.correlation))
          && (enqueue.Works? && get.Works? && ack.Works? && !raised ==> i !in transport.pending)
          && (raised && enqueue.Works? && get.Works? ==> id in old(store.rows))
      ensures transport.pending <= old(transport.pending)
      ensures forall j | j != i :: j in transport.pending <==> j in old(transport.pending)
    {
      if read(transport.log[i]).None? {
        raised := false;
        states, events := SafeNack(i, read, add, ack);
      } else {
        raised, states, events := StoreMessage(i, read, id, now, enqueue, get, ack);
      }
    }

    method PollEntry(read: Entry -> Option<Job>, poll: Fault)
      returns (i: Option<nat>, ghost states: seq<State>, ghost events: seq<Event>)
      requires transport.Valid()
      modifies transport`delivered, transport`pending, transport`recovered
      ensures transport.Valid() && (i.Some? ==> i.value < |transport.log|)
      ensures Path(read, states, events) && states[0] == old(At(Idle))
      ensures states[|states| - 1] == At(if i.Some? then Polled(i.value) else Idle)
      ensures events != [] && (poll.Works? ==> events[0] == NothingNew || (events[0].Read? && events[0].seen))
    {
      ghost var s := At(Idle);
      if poll.RaisesBefore? {
        return None, [s, s], [Fails];
      }
      i := transport.Poll();
      if i.None? {
        return None, [s, At(Idle)], [NothingNew];
      }
      if poll.RaisesAfter? {
        return None, [s, At(Idle)], [Read(i.value, false)];
      }
      return i, [s, At(Polled(i.value))], [Read(i.value, true)];
    }

    /** One turn of the consumer's loop takes steps of the protocol from idle to idle, whichever call fails. */
    method ConsumeOnce(
        read: Entry -> Option<Job>, id: string, now: string, poll: Fault, enqueue: Fault, get: Fault, add: Fault, ack: Fault)
      returns (ghost states: seq<State>, ghost events: seq<Event>)
      requires Routed(read) && transport.Valid() && BridgeRows(store.rows)
      modifies store, transport`delivered, transport`pending, transport`dead, transport`recovered
      ensures transport.Valid() && BridgeRows(store.rows)
      ensures Path(read, states, events) && states[0] == old(At(Idle)) && states[|states| - 1] == At(Idle)
      ensures events != [] && (poll.Works? ==> events[0] == NothingNew || (events[0].Read? && events[0].seen))
    {
      var i;
      i, states, events := PollEntry(read, poll);
      if i.None? {
        return;
      }
      var raised;
      ghost var more, later;
      raised, more, later := HandleMessage(i.value, read, id, now, enqueue, get, add, ack);
      PathsJoin(read, states, events, more, later);
      states, events := states + more[1..], events + later;
    }
  }

  lemma StoredMatches(rows: Rows, id: string, job: Job, now: string)
    requires BridgeRows(rows) && job.request.bridgeCorrelation == Some(job.correlation) && job.request.idempotencyKey.None?
    ensures BridgeRows(Inserted(rows, id, NewRow(job, now)))
  {
    InsertKeepsUniqueKeys(rows, id, NewRow(job, now));
  }
}
