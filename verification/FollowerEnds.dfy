/** How a follower ends and how often it beats, whatever the stream file holds. */
module FollowerEnds {
  import opened Jobs
  import opened Ndjson
  import opened Streaming
  import opened StreamFollower

  /** The events of the chunks that have text; an empty chunk is not sent. */
  function Sent(records: seq<Record>): seq<Event> {
    if records == [] then []
    else if records[0].Chunk? && records[0].text != "" then [ChunkEvent(records[0].text, records[0].i)] + Sent(records[1..])
    else Sent(records[1..])
  }

  ghost predicate AllChunks(records: seq<Record>) {
    forall r | r in records :: r.Chunk?
  }

  function FirstReads(polls: seq<Poll>): seq<Read> {
    if polls == [] then [] else [polls[0].first] + FirstReads(polls[1..])
  }

  function Beaten(events: seq<Event>): nat {
    if events == [] then 0 else (if events[0].Heartbeat? then 1 else 0) + Beaten(events[1..])
  }

  lemma {:induction false} SentAppend(a: seq<Record>, b: seq<Record>)
    ensures Sent(a + b) == Sent(a) + Sent(b)
  {
    if a == [] {
      assert a + b == b;
    } else {
      assert (a + b)[1..] == a[1..] + b;
      SentAppend(a[1..], b);
    }
  }

  lemma {:induction false} BeatenAppend(a: seq<Event>, b: seq<Event>)
    ensures Beaten(a + b) == Beaten(a) + Beaten(b)
  {
    if a == [] {
      assert a + b == b;
    } else {
      assert (a + b)[1..] == a[1..] + b;
      BeatenAppend(a[1..], b);
    }
  }

  lemma {:induction false} SentIsContent(records: seq<Record>)
    ensures Content(Sent(records)) == Sent(records) && Beaten(Sent(records)) == 0
  {
    if records != [] { SentIsContent(records[1..]); }
  }

  lemma {:induction false} EmitChunks(a: seq<Record>, b: seq<Record>, status: string, error: string)
    requires AllChunks(a)
    ensures Emit(a + b, status, error) == Prepend(Sent(a), Emit(b, status, error))
  {
    if a == [] {
      assert a + b == b;
      PrependNothing(Emit(b, status, error));
    } else {
      assert (a + b)[1..] == a[1..] + b;
      EmitChunks(a[1..], b, status, error);
      PrependTwice([ChunkEvent(a[0].text, a[0].i)], Sent(a[1..]), Emit(b, status, error));
    }
  }

  lemma EmitOnlyChunks(a: seq<Record>, status: string, error: string)
    requires AllChunks(a)
    ensures Emit(a, status, error) == Output(Sent(a), false)
  {
    EmitChunks(a, [], status, error);
    assert a + [] == a;
  }

  /** The events up to a final record: its own status and error, or the given ones where it has none. */
  lemma EmitUpToFinal(a: seq<Record>, s: string, e: string, b: seq<Record>, status: string, error: string)
    requires AllChunks(a)
    ensures Emit(a + [Done(s, e)] + b, status, error) ==
            Output(Sent(a) + [DoneEvent(if s != "" then s else status, if e != "" then e else error)], true)
  {
    assert a + [Done(s, e)] + b == a + ([Done(s, e)] + b);
    EmitChunks(a, [Done(s, e)] + b, status, error);
  }

  // Quiet polls.

  /** The job is open in the first `k` polls, and their first reads bring no final record. */
  ghost predicate Quiet(read: LineReader, tail: TailState, polls: seq<Poll>, k: nat)
    requires k <= |polls|
  {
    && (forall i | 0 <= i < k :: polls[i].job.Some? && !polls[i].job.value.status.Terminal())
    && AllChunks(Got(read, tail, FirstReads(polls[..k])))
  }

  lemma FirstReadsCons(polls: seq<Poll>, k: nat)
    requires 0 < k <= |polls|
    ensures FirstReads(polls[..k]) == [polls[0].first] + FirstReads(polls[1..][..k - 1])
    ensures FirstReads(polls[..k])[1..] == FirstReads(polls[1..][..k - 1])
  {
    assert polls[..k][1..] == polls[1..][..k - 1];
  }

  lemma ChunksApart(a: seq<Record>, b: seq<Record>)
    requires AllChunks(a + b)
    ensures AllChunks(a) && AllChunks(b)
  {
    forall r | r in a || r in b ensures r.Chunk? { assert r in a + b; }
  }

  lemma QuietHead(read: LineReader, tail: TailState, polls: seq<Poll>, k: nat) returns (got: seq<Record>)
    requires 0 < k <= |polls| && Quiet(read, tail, polls, k)
    ensures got == ReadStep(read, tail, polls[0].first).1
    ensures forall emitted :: TurnOf(read, tail, emitted, polls[0]) == Output(Sent(got), false)
    ensures Quiet(read, ReadStep(read, tail, polls[0].first).0, polls[1..], k - 1)
  {
    FirstReadsCons(polls, k);
    got := ReadStep(read, tail, polls[0].first).1;
    ChunksApart(got, Got(read, ReadStep(read, tail, polls[0].first).0, FirstReads(polls[1..][..k - 1])));
    EmitOnlyChunks(got, "completed", "");
  }

  lemma TurnContent(got: seq<Record>, beats: bool)
    ensures var sent := if beats then Sent(got) + [Heartbeat] else Sent(got);
            Content(sent) == Sent(got) && Beaten(sent) == if beats then 1 else 0
  {
    SentIsContent(got);
    ContentAppend(Sent(got), [Heartbeat]);
    BeatenAppend(Sent(got), [Heartbeat]);
    assert [Heartbeat][1..] == [] && Content([Heartbeat]) == [] && Beaten([Heartbeat]) == 1;
    assert Sent(got) + [] == Sent(got);
  }

  lemma QuietTurn(sent: seq<Event>, got: seq<Record>, before: seq<Event>, later: seq<Record>)
    requires Content(sent) == Sent(got) && Content(before) == Sent(later)
    ensures Content(sent + before) == Sent(got + later) && Beaten(sent + before) == Beaten(sent) + Beaten(before)
  {
    ContentAppend(sent, before);
    BeatenAppend(sent, before);
    SentAppend(got, later);
  }

  lemma NoneSent(a: seq<Record>, b: seq<Record>, emitted: bool)
    ensures emitted || Sent(a) != [] || Sent(b) != [] <==> emitted || Sent(a + b) != []
  {
    SentAppend(a, b);
  }

  /** When the follower beats. */
  function BeatTimes(lastBeat: real, every: real, polls: seq<Poll>): seq<real>
    decreases |polls|
  {
    if polls == [] then []
    else if Beats(every, lastBeat, polls[0].now) then [polls[0].now] + BeatTimes(polls[0].now, every, polls[1..])
    else BeatTimes(lastBeat, every, polls[1..])
  }

  function LastOr(times: seq<real>, first: real): real {
    if times == [] then first else times[|times| - 1]
  }

  lemma {:induction false} BeatsKeepPace(lastBeat: real, every: real, polls: seq<Poll>)
    ensures Paced(BeatTimes(lastBeat, every, polls), lastBeat, every, polls)
    decreases |polls|
  {
    if polls != [] {
      BeatsKeepPace(if Beats(every, lastBeat, polls[0].now) then polls[0].now else lastBeat, every, polls[1..]);
    }
  }

  /** No two beats within `every` seconds, no gap of that length left behind, and none at all unless it is positive. */
  ghost predicate Paced(times: seq<real>, start: real, every: real, polls: seq<Poll>) {
    && (every <= 0.0 ==> times == [])
    && (times != [] ==> times[0] - start >= every)
    && (forall i | 0 < i < |times| :: times[i] - times[i - 1] >= every)
    && (every > 0.0 && polls != [] ==> polls[|polls| - 1].now - LastOr(times, start) < every)
  }

  /** The follower has passed on `before` in the first `k` polls, and goes on from there. */
  ghost predicate GoesOn(
      read: LineReader, tail: TailState, emitted: bool, lastBeat: real, every: real, polls: seq<Poll>, k: nat, before: seq<Event>, beat: real)
    requires k <= |polls|
  {
    var looks := FirstReads(polls[..k]);
    Followed(read, tail, emitted, lastBeat, every, polls) ==
      Prepend(before, Followed(read, TailAfter(read, tail, looks), emitted || Sent(Got(read, tail, looks)) != [], beat, every, polls[k..]))
  }

  lemma GoesOnFrom(
      read: LineReader, tail: TailState, emitted: bool, lastBeat: real, every: real, polls: seq<Poll>, k: nat,
      got: seq<Record>, some: bool, from: real, sent: seq<Event>, before: seq<Event>, beat: real)
    requires 0 < k <= |polls| && got == ReadStep(read, tail, polls[0].first).1 && some == (emitted || Sent(got) != [])
    requires TurnOf(read, tail, emitted, polls[0]) == Output(Sent(got), false)
    requires from == if Beats(every, lastBeat, polls[0].now) then polls[0].now else lastBeat
    requires sent == if Beats(every, lastBeat, polls[0].now) then Sent(got) + [Heartbeat] else Sent(got)
    requires GoesOn(read, ReadStep(read, tail, polls[0].first).0, some, from, every, polls[1..], k - 1, before, beat)
    ensures GoesOn(read, tail, emitted, lastBeat, every, polls, k, sent + before, beat)
  {
    var next, looks := ReadStep(read, tail, polls[0].first).0, FirstReads(polls[1..][..k - 1]);
    FirstReadsCons(polls, k);
    assert polls[1..][k - 1..] == polls[k..];
    NoneSent(got, Got(read, next, looks), emitted);
    PrependTwice(sent, before, Followed(read, TailAfter(read, next, looks),
                                        emitted || Sent(got + Got(read, next, looks)) != [], beat, every, polls[k..]));
  }

  lemma BeatsFrom(lastBeat: real, every: real, polls: seq<Poll>, k: nat, from: real, due: bool)
    requires 0 < k <= |polls| && due == Beats(every, lastBeat, polls[0].now) && from == if due then polls[0].now else lastBeat
    ensures var later := BeatTimes(from, every, polls[1..][..k - 1]);
      && |BeatTimes(lastBeat, every, polls[..k])| == |later| + (if due then 1 else 0)
      && LastOr(BeatTimes(lastBeat, every, polls[..k]), lastBeat) == LastOr(later, from)
  {
    assert polls[..k][1..] == polls[1..][..k - 1];
  }

  /** While polls are quiet the follower passes on the chunks they read, and beats. */
  lemma {:induction false} QuietPolls(
      read: LineReader, tail: TailState, emitted: bool, lastBeat: real, every: real, polls: seq<Poll>, k: nat)
    returns (before: seq<Event>, beat: real)
    requires k <= |polls| && Quiet(read, tail, polls, k)
    ensures GoesOn(read, tail, emitted, lastBeat, every, polls, k, before, beat)
    ensures Content(before) == Sent(Got(read, tail, FirstReads(polls[..k])))
    ensures Beaten(before) == |BeatTimes(lastBeat, every, polls[..k])| && beat == LastOr(BeatTimes(lastBeat, every, polls[..k]), lastBeat)
    decreases k
  {
    if k == 0 {
      assert polls[..0] == [] && polls[0..] == polls;
      PrependNothing(Followed(read, tail, emitted, lastBeat, every, polls));
      return [], lastBeat;
    }
    var got := QuietHead(read, tail, polls, k);
    var next, now := ReadStep(read, tail, polls[0].first).0, polls[0].now;
    var due := Beats(every, lastBeat, now);
    var sent := if due then Sent(got) + [Heartbeat] else Sent(got);
    var some, from := emitted || Sent(got) != [], if due then now else lastBeat;
    var later: seq<Event>;
    later, beat := QuietPolls(read, next, some, from, every, polls[1..], k - 1);
    GoesOnFrom(read, tail, emitted, lastBeat, every, polls, k, got, some, from, sent, later, beat);
    TurnContent(got, due);
    QuietTurn(sent, got, later, Got(read, next, FirstReads(polls[1..][..k - 1])));
    FirstReadsCons(polls, k);
    BeatsFrom(lastBeat, every, polls, k, from, due);
    before := sent + later;
  }

  /**
   * While the job is open and no final record is read, the client gets exactly the chunks, and heartbeats: not two
   * within `every` seconds, no gap of that length left behind, and none at all unless `every` is positive.
   */
  lemma QuietFollower(read: LineReader, tail: TailState, start: real, every: real, polls: seq<Poll>) returns (times: seq<real>)
    requires Quiet(read, tail, polls, |polls|)
    ensures var out := Followed(read, tail, false, start, every, polls);
            !out.finished && Content(out.events) == Sent(Got(read, tail, FirstReads(polls))) && Beaten(out.events) == |times|
    ensures Paced(times, start, every, polls)
  {
    assert polls[..|polls|] == polls && polls[|polls|..] == [];
    var before, beat := QuietPolls(read, tail, false, start, every, polls, |polls|);
    assert before + [] == before;
    BeatsKeepPace(start, every, polls);
    times := BeatTimes(start, every, polls);
  }

  /** What poll `k` itself reads. */
  lemma {:induction false} LastGot(read: LineReader, tail: TailState, polls: seq<Poll>, k: nat) returns (got: seq<Record>)
    requires k < |polls|
    ensures var at := TailAfter(read, tail, FirstReads(polls[..k]));
      && got == ReadStep(read, at, polls[k].first).1
      && TailAfter(read, tail, FirstReads(polls[..k + 1])) == ReadStep(read, at, polls[k].first).0
      && Got(read, tail, FirstReads(polls[..k + 1])) == Got(read, tail, FirstReads(polls[..k])) + got
    decreases k
  {
    var head, next := ReadStep(read, tail, polls[0].first).1, ReadStep(read, tail, polls[0].first).0;
    FirstReadsCons(polls, k + 1);
    if k == 0 {
      assert polls[..0] == [] && polls[1..][..0] == [];
      got := head;
      assert Got(read, next, []) == [] && got + [] == got && [] + got == got;
    } else {
      FirstReadsCons(polls, k);
      got := LastGot(read, next, polls[1..], k - 1);
      var some := Got(read, next, FirstReads(polls[1..][..k - 1]));
      assert head + (some + got) == head + some + got;
    }
  }

  // Endings.

  /** The last turn: what it sends after its chunks is `ending`. */
  lemma EndContent(before: seq<Event>, earlier: seq<Record>, got: seq<Record>, ending: seq<Event>)
    requires Content(before) == Sent(earlier) && Content(ending) == ending
    ensures Content(before + (Sent(got) + ending)) == Sent(earlier + got) + ending
  {
    ContentAppend(before, Sent(got) + ending);
    ContentAppend(Sent(got), ending);
    SentIsContent(got);
    SentAppend(earlier, got);
    Regroup(Sent(earlier), Sent(got), ending);
  }

  lemma Regroup(a: seq<Event>, b: seq<Event>, c: seq<Event>)
    ensures a + (b + c) == a + b + c
  {
  }

  lemma OneEvent(e: Event)
    requires !e.Heartbeat?
    ensures Content([e]) == [e]
  {
    assert [e][1..] == [];
  }

  lemma TwoEvents(e: Event, f: Event)
    requires !e.Heartbeat? && !f.Heartbeat?
    ensures Content([e, f]) == [e, f]
  {
    OneEvent(f);
    assert [e, f][1..] == [f];
  }

  lemma ChunksThen(a: seq<Record>, e: Event)
    requires !e.Heartbeat?
    ensures Content(Sent(a) + [e]) == Sent(a) + [e]
  {
    SentIsContent(a);
    OneEvent(e);
    ContentAppend(Sent(a), [e]);
  }

  /** The chunks of all first reads up to poll `k`. */
  function Seen(read: LineReader, tail: TailState, polls: seq<Poll>, k: nat): seq<Record>
    requires k <= |polls|
  {
    Got(read, tail, FirstReads(polls[..k]))
  }

  /** If poll `k` ends the stream, what is delivered is what was seen, and the ending. */
  lemma EndsWith(
      read: LineReader, tail: TailState, emitted: bool, lastBeat: real, every: real, polls: seq<Poll>, k: nat,
      got: seq<Record>, ending: seq<Event>)
    requires k < |polls| && Quiet(read, tail, polls, k) && Content(ending) == ending
    requires
      var at, some := TailAfter(read, tail, FirstReads(polls[..k])), emitted || Sent(Seen(read, tail, polls, k)) != [];
      TurnOf(read, at, some, polls[k]) == Output(Sent(got) + ending, true)
    ensures var out := Followed(read, tail, emitted, lastBeat, every, polls);
            out.finished && Content(out.events) == Sent(Seen(read, tail, polls, k) + got) + ending
  {
    var before, beat := QuietPolls(read, tail, emitted, lastBeat, every, polls, k);
    EndContent(before, Seen(read, tail, polls, k), got, ending);
    assert polls[k..][0] == polls[k];
  }

  /** A job that is gone: the chunks read so far, and then exactly one event, that the job failed as it was not found. */
  lemma FollowerOfGoneJob(
      read: LineReader, tail: TailState, emitted: bool, lastBeat: real, every: real, polls: seq<Poll>, k: nat)
    requires k < |polls| && Quiet(read, tail, polls, k) && polls[k].job.None?
    requires AllChunks(Seen(read, tail, polls, k + 1))
    ensures var out := Followed(read, tail, emitted, lastBeat, every, polls);
      && out.finished
      && Content(out.events) == Sent(Seen(read, tail, polls, k + 1)) + [DoneEvent("failed", "job not found")]
  {
    var got := LastGot(read, tail, polls, k);
    ChunksApart(Seen(read, tail, polls, k), got);
    EmitOnlyChunks(got, "completed", "");
    OneEvent(DoneEvent("failed", "job not found"));
    EndsWith(read, tail, emitted, lastBeat, every, polls, k, got, [DoneEvent("failed", "job not found")]);
  }

  /** A final record ends the stream with what it says, or "completed" if it has no status; whatever follows it is not sent. */
  lemma FollowerOfFinalRecord(
      read: LineReader, tail: TailState, emitted: bool, lastBeat: real, every: real, polls: seq<Poll>, k: nat,
      a: seq<Record>, s: string, e: string, b: seq<Record>)
    requires k < |polls| && Quiet(read, tail, polls, k) && AllChunks(a)
    requires Seen(read, tail, polls, k + 1) == Seen(read, tail, polls, k) + (a + [Done(s, e)] + b)
    ensures var out := Followed(read, tail, emitted, lastBeat, every, polls);
      && out.finished
      && Content(out.events) == Sent(Seen(read, tail, polls, k) + a) + [DoneEvent(if s != "" then s else "completed", e)]
  {
    var got := LastGot(read, tail, polls, k);
    SameRest(Seen(read, tail, polls, k), got, a + [Done(s, e)] + b);
    EmitUpToFinal(a, s, e, b, "completed", "");
    var last := DoneEvent(if s != "" then s else "completed", e);
    OneEvent(last);
    EndsWith(read, tail, emitted, lastBeat, every, polls, k, a, [last]);
  }

  lemma SameRest(a: seq<Record>, b: seq<Record>, c: seq<Record>)
    requires a + b == a + c
    ensures b == c
  {
    assert b == (a + b)[|a|..] && c == (a + c)[|a|..];
  }

  /** The records of the second read of poll `k`. */
  function SecondRead(read: LineReader, tail: TailState, polls: seq<Poll>, k: nat): seq<Record>
    requires k < |polls|
  {
    ReadStep(read, TailAfter(read, tail, FirstReads(polls[..k + 1])), polls[k].second).1
  }

  /** One turn that finds the job terminal, its first read without a final record. */
  lemma TerminalTurn(read: LineReader, at: TailState, emitted: bool, p: Poll, got: seq<Record>, last: seq<Event>)
    requires p.job.Some? && p.job.value.status.Terminal() && AllChunks(got) && got == ReadStep(read, at, p.first).1
    requires last == LastEvents(read, ReadStep(read, at, p.first).0, emitted || Sent(got) != [], p.second, p.job.value)
    ensures TurnOf(read, at, emitted, p) == Output(Sent(got) + last, true)
  {
    EmitOnlyChunks(got, "completed", "");
  }

  lemma NothingEmitted(read: LineReader, tail: TailState, polls: seq<Poll>, k: nat, got: seq<Record>, more: seq<Record>)
    requires k < |polls| && Seen(read, tail, polls, k + 1) == Seen(read, tail, polls, k) + got
    ensures Sent(Seen(read, tail, polls, k + 1) + more) == [] <==>
            Sent(Seen(read, tail, polls, k)) == [] && Sent(got) == [] && Sent(more) == []
  {
    SentAppend(Seen(read, tail, polls, k), got);
    SentAppend(Seen(read, tail, polls, k + 1), more);
  }

  /**
   * A terminal job and no final record in sight: what the second read brings is sent as well, the stored output only
   * if no chunk ever was, and the stored status and error end the stream.
   */
  lemma FollowerOfTerminalJob(
      read: LineReader, tail: TailState, lastBeat: real, every: real, polls: seq<Poll>, k: nat, job: JobView) returns (status: string)
    requires k < |polls| && Quiet(read, tail, polls, k) && polls[k].job == Some(job) && job.status.Terminal()
    requires AllChunks(Seen(read, tail, polls, k + 1)) && AllChunks(SecondRead(read, tail, polls, k))
    ensures var out := Followed(read, tail, false, lastBeat, every, polls);
      var chunks := Sent(Seen(read, tail, polls, k + 1) + SecondRead(read, tail, polls, k));
      && out.finished
      && Content(out.events) ==
           (if chunks == [] && job.output != "" then [ChunkEvent(job.output, Some(0))] else chunks) + [DoneEvent(status, job.error)]
    ensures job.status.Completed? ==> status == "completed"
    ensures job.status.Failed? ==> status == "failed"
    ensures job.status.Cancelled? ==> status == "cancelled"
  {
    status := StatusText(job.status);
    var got := LastGot(read, tail, polls, k);
    var more, last := SecondRead(read, tail, polls, k), DoneEvent(status, job.error);
    ChunksApart(Seen(read, tail, polls, k), got);
    EmitOnlyChunks(more, StatusText(job.status), job.error);
    NothingEmitted(read, tail, polls, k, got, more);
    var at, some := TailAfter(read, tail, FirstReads(polls[..k])), Sent(Seen(read, tail, polls, k)) != [];
    var stored := !some && Sent(got) == [] && Sent(more) == [] && job.output != "";
    var ending := if stored then [ChunkEvent(job.output, Some(0)), last] else Sent(more) + [last];
    TerminalTurn(read, at, some, polls[k], got, ending);
    TwoEvents(ChunkEvent(job.output, Some(0)), last);
    ChunksThen(more, last);
    EndsWith(read, tail, false, lastBeat, every, polls, k, got, ending);
    Ending(Seen(read, tail, polls, k + 1), more, stored, ChunkEvent(job.output, Some(0)), last);
  }

  lemma Ending(seen: seq<Record>, more: seq<Record>, stored: bool, output: Event, last: Event)
    requires stored ==> Sent(seen + more) == []
    ensures Sent(seen) + (if stored then [output, last] else Sent(more) + [last]) ==
            (if stored then [output] else Sent(seen + more)) + [last]
  {
    SentAppend(seen, more);
  }

  /** A terminal job whose final record the second read brings: the record's status and error, or else the stored ones. */
  lemma FollowerOfFinishedJob(
      read: LineReader, tail: TailState, emitted: bool, lastBeat: real, every: real, polls: seq<Poll>, k: nat, job: JobView,
      a: seq<Record>, s: string, e: string, b: seq<Record>)
    requires k < |polls| && Quiet(read, tail, polls, k) && polls[k].job == Some(job) && job.status.Terminal()
    requires AllChunks(Seen(read, tail, polls, k + 1)) && AllChunks(a)
    requires SecondRead(read, tail, polls, k) == a + [Done(s, e)] + b
    ensures var out := Followed(read, tail, emitted, lastBeat, every, polls);
      && out.finished
      && Content(out.events) ==
           Sent(Seen(read, tail, polls, k + 1) + a)
           + [DoneEvent(if s != "" then s else StatusText(job.status), if e != "" then e else job.error)]
  {
    var got := LastGot(read, tail, polls, k);
    var last := DoneEvent(if s != "" then s else StatusText(job.status), if e != "" then e else job.error);
    ChunksApart(Seen(read, tail, polls, k), got);
    EmitUpToFinal(a, s, e, b, StatusText(job.status), job.error);
    var at, some := TailAfter(read, tail, FirstReads(polls[..k])), emitted || Sent(Seen(read, tail, polls, k)) != [];
    TerminalTurn(read, at, some, polls[k], got, Sent(a) + [last]);
    ChunksThen(a, last);
    EndsWith(read, tail, emitted, lastBeat, every, polls, k, got, Sent(a) + [last]);
    Ending(Seen(read, tail, polls, k + 1), a, false, last, last);
  }
}
