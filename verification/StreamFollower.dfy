/** What a follower delivers, over every interleaving of its reads with the writes of one attempt. */
module StreamFollower {
  import opened Jobs
  import opened Ndjson
  import opened Streaming

  /** The chunk events of a run of records. */
  function ChunkEvents(records: seq<Record>): seq<Event> {
    if records == [] then []
    else match records[0]
      case Chunk(i, text) => [ChunkEvent(text, i)] + ChunkEvents(records[1..])
      case Done(_, _) => ChunkEvents(records[1..])
  }

  /** The events without the heartbeats. */
  function Content(events: seq<Event>): seq<Event> {
    if events == [] then []
    else if events[0].Heartbeat? then Content(events[1..])
    else [events[0]] + Content(events[1..])
  }

  lemma {:induction false} ContentAppend(a: seq<Event>, b: seq<Event>)
    ensures Content(a + b) == Content(a) + Content(b)
  {
    if a == [] {
      assert a + b == b;
    } else {
      assert (a + b)[1..] == a[1..] + b;
      ContentAppend(a[1..], b);
    }
  }

  lemma {:induction false} ChunksAreContent(records: seq<Record>)
    ensures Content(ChunkEvents(records)) == ChunkEvents(records)
  {
    if records != [] { ChunksAreContent(records[1..]); }
  }

  lemma {:induction false} ChunksAppend(a: seq<Record>, b: seq<Record>)
    ensures ChunkEvents(a + b) == ChunkEvents(a) + ChunkEvents(b)
  {
    if a == [] {
      assert a + b == b;
    } else {
      assert (a + b)[1..] == a[1..] + b;
      ChunksAppend(a[1..], b);
    }
  }

  /** The chunk events of an attempt are its chunks, in order and numbered from 0. */
  lemma {:induction false} ChunksOfAttempt(records: seq<Record>, n: nat, k: nat)
    requires Attempt(records, n, true) && k <= n
    ensures |ChunkEvents(records[k..n])| == n - k
    ensures forall j | k <= j < n :: ChunkEvents(records[k..n])[j - k] == ChunkEvent(records[j].text, Some(j))
    decreases n - k
  {
    if k < n {
      ChunksOfAttempt(records, n, k + 1);
      assert records[k..n][1..] == records[k + 1..n];
    }
  }

  function FinalEvents(records: seq<Record>, n: nat, k: nat, status: string, error: string): seq<Event>
    requires k <= n < |records| && records[n].Done?
  {
    ChunkEvents(records[k..n]) + [DoneEvent(OrElse(records[n].status, status), OrElse(records[n].error, error))]
  }

  lemma {:induction false} EmitRange(records: seq<Record>, n: nat, from: nat, to: nat, status: string, error: string)
    requires Attempt(records, n, true) && from <= to <= n + 1
    ensures to <= n ==> Emit(records[from..to], status, error) == Output(ChunkEvents(records[from..to]), false)
    ensures from <= n < to ==> Emit(records[from..to], status, error) == Output(FinalEvents(records, n, from, status, error), true)
    decreases |records| - from
  {
    if from < to {
      EmitRange(records, n, from + 1, to, status, error);
      assert records[from..to][1..] == records[from + 1..to];
      if from < n { assert records[from..n][1..] == records[from + 1..n]; }
    }
  }

  /**
   * What the second read may find once the job is terminal: the whole stream, or, where the result is stored
   * before the final record is written, all its chunks and the status that the record is going to have.
   */
  ghost predicate Ends(second: Read, job: JobView, c: nat, chunks: string, status: string, whole: string) {
    && second.Snapshot? && c <= second.size && c <= |second.text| && chunks <= second.text <= whole
    && (second.text == whole || (StatusText(job.status) == status && job.output == ""))
  }

  /**
   * What a follower may see of a file that grows to `whole`: each read finds no file, fails to open it, or finds
   * a prefix that starts with what was read before.
   */
  ghost predicate Grows(polls: seq<Poll>, c: nat, chunks: string, status: string, whole: string) {
    polls == []
    || (var p := polls[0];
        var c' := if p.first.Snapshot? then |p.first.text| else c;
        && (p.first.Unreadable? ==> c <= p.first.size)
        && (p.first.Snapshot? ==> c <= p.first.size && c <= |p.first.text| && p.first.text <= whole)
        && p.job.Some?
        && (p.job.value.status.Terminal() ==> Ends(p.second, p.job.value, c', chunks, status, whole))
        && Grows(polls[1..], c', chunks, status, whole))
  }

  /** The reader has taken in the first `c` characters, and with them the first `k` records. */
  ghost predicate At(read: LineReader, whole: string, c: nat, k: nat, tail: TailState) {
    c <= |whole| && tail == TailState(c, Rest(whole[..c])) && |Records(read, whole[..c])| == k
  }

  lemma Between(records: seq<Record>, first: seq<Record>, more: seq<Record>)
    requires first + more <= records
    ensures |first| <= |first + more| <= |records| && records[|first|..|first + more|] == more
  {
  }

  /** A read moves the reader on to what it saw, and yields exactly the records in between. */
  lemma ReadAdvances(read: LineReader, whole: string, records: seq<Record>, c: nat, k: nat, tail: TailState, r: Read) returns (c': nat, k': nat)
    requires Records(read, whole) == records && At(read, whole, c, k, tail)
    requires r.Unreadable? ==> c <= r.size
    requires r.Snapshot? ==> c <= r.size && c <= |r.text| && r.text <= whole
    ensures k <= k' <= |records| && At(read, whole, c', k', ReadStep(read, tail, r).0)
    ensures ReadStep(read, tail, r).1 == records[k..k']
    ensures c' == if r.Snapshot? then |r.text| else c
    ensures r.Snapshot? && r.text == whole ==> k' == |records|
  {
    RecordsPrefix(read, whole[..c], whole);
    if !r.Snapshot? {
      return c, k;
    }
    IncrementalIsBatch(read, whole, c, r);
    RecordsPrefix(read, r.text, whole);
    assert whole[..|r.text|] == r.text;
    Between(records, Records(read, whole[..c]), ReadStep(read, tail, r).1);
    c', k' := |r.text|, |Records(read, r.text)|;
  }

  /** Exactly the chunks from `k` on, followed by one final event. */
  ghost predicate Exactly(events: seq<Event>, records: seq<Record>, n: nat, k: nat)
    requires Attempt(records, n, true) && k <= n
  {
    exists error :: Content(events) == ChunkEvents(records[k..n]) + [DoneEvent(records[n].status, error)]
  }

  lemma SplitChunks(records: seq<Record>, a: nat, b: nat, c: nat)
    requires a <= b <= c <= |records|
    ensures ChunkEvents(records[a..c]) == ChunkEvents(records[a..b]) + ChunkEvents(records[b..c])
  {
    assert records[a..c] == records[a..b] + records[b..c];
    ChunksAppend(records[a..b], records[b..c]);
  }

  /** The text that holds the chunks and nothing else. */
  ghost predicate HoldsChunks(read: LineReader, chunks: string, whole: string, records: seq<Record>, n: nat)
    requires n <= |records|
  {
    chunks <= whole && Records(read, chunks) == records[..n]
  }

  /** The events of the last turn, when the job is terminal. */
  lemma LastIsExact(
      read: LineReader, whole: string, chunks: string, records: seq<Record>, n: nat, c: nat, k: nat, tail: TailState,
      emitted: bool, second: Read, job: JobView) returns (error: string)
    requires Records(read, whole) == records && Attempt(records, n, true) && k <= n && records[n].status != ""
    requires At(read, whole, c, k, tail)
    requires HoldsChunks(read, chunks, whole, records, n) && Ends(second, job, c, chunks, records[n].status, whole)
    ensures LastEvents(read, tail, emitted, second, job) == ChunkEvents(records[k..n]) + [DoneEvent(records[n].status, error)]
  {
    var c', k' := ReadAdvances(read, whole, records, c, k, tail, second);
    RecordsPrefix(read, chunks, second.text);
    assert k' >= n by { assert whole[..|second.text|] == second.text; }
    EmitRange(records, n, k, k', StatusText(job.status), job.error);
    error := if k' == n + 1 then OrElse(records[n].error, job.error) else job.error;
  }

  /** The events of one turn, from `k` to `k'` records. */
  lemma TurnIsExact(
      read: LineReader, whole: string, chunks: string, records: seq<Record>, n: nat, c: nat, k: nat, tail: TailState,
      emitted: bool, p: Poll)
    returns (c': nat, k': nat)
    requires Records(read, whole) == records && Attempt(records, n, true) && k <= n && records[n].status != ""
    requires At(read, whole, c, k, tail) && HoldsChunks(read, chunks, whole, records, n)
    requires Grows([p], c, chunks, records[n].status, whole)
    ensures var turn := TurnOf(read, tail, emitted, p);
            if turn.finished then Exactly(turn.events, records, n, k)
            else k <= k' <= n && turn.events == ChunkEvents(records[k..k']) && At(read, whole, c', k', ReadStep(read, tail, p.first).0)
    ensures c' == if p.first.Snapshot? then |p.first.text| else c
  {
    c', k' := ReadAdvances(read, whole, records, c, k, tail, p.first);
    EmitRange(records, n, k, k', "completed", "");
    if k' == n + 1 {
      FinalContent(records, n, k, records[n].error);
    } else if p.job.value.status.Terminal() {
      var some := emitted || Emit(records[k..k'], "completed", "").events != [];
      var error := LastIsExact(
        read, whole, chunks, records, n, c', k', ReadStep(read, tail, p.first).0, some, p.second, p.job.value);
      SplitChunks(records, k, k', n);
      var last := [DoneEvent(records[n].status, error)];
      assert ChunkEvents(records[k..k']) + (ChunkEvents(records[k'..n]) + last) == ChunkEvents(records[k..n]) + last;
      FinalContent(records, n, k, error);
    }
  }

  lemma FinalContent(records: seq<Record>, n: nat, k: nat, error: string)
    requires Attempt(records, n, true) && k <= n
    ensures Exactly(ChunkEvents(records[k..n]) + [DoneEvent(records[n].status, error)], records, n, k)
  {
    var last := [DoneEvent(records[n].status, error)];
    ContentAppend(ChunkEvents(records[k..n]), last);
    ChunksAreContent(records[k..n]);
    assert last[1..] == [];
    assert Content(last) == last;
  }

  lemma {:induction false} FollowsExactly(
      read: LineReader, whole: string, chunks: string, records: seq<Record>, n: nat, c: nat, k: nat, tail: TailState,
      emitted: bool, lastBeat: real, every: real, polls: seq<Poll>)
    requires Records(read, whole) == records && Attempt(records, n, true) && k <= n && records[n].status != ""
    requires At(read, whole, c, k, tail) && HoldsChunks(read, chunks, whole, records, n)
    requires Grows(polls, c, chunks, records[n].status, whole)
    ensures var out := Followed(read, tail, emitted, lastBeat, every, polls);
            if out.finished then Exactly(out.events, records, n, k) else Content(out.events) <= ChunkEvents(records[k..n])
    decreases |polls|
  {
    if polls != [] {
      var p := polls[0];
      var turn := TurnOf(read, tail, emitted, p);
      var c', k' := TurnIsExact(read, whole, chunks, records, n, c, k, tail, emitted, p);
      if !turn.finished {
        var next := ReadStep(read, tail, p.first).0;
        var some, beats := emitted || turn.events != [], Beats(every, lastBeat, p.now);
        var beat := if beats then p.now else lastBeat;
        FollowsExactly(read, whole, chunks, records, n, c', k', next, some, beat, every, polls[1..]);
        TurnThenRest(records, n, k, k', beats, Followed(read, next, some, beat, every, polls[1..]));
      }
    }
  }

  lemma TurnThenRest(records: seq<Record>, n: nat, k: nat, k': nat, beats: bool, rest: Output)
    requires Attempt(records, n, true) && k <= k' <= n
    requires if rest.finished then Exactly(rest.events, records, n, k') else Content(rest.events) <= ChunkEvents(records[k'..n])
    ensures var events := ChunkEvents(records[k..k']);
            var out := Prepend(if beats then events + [Heartbeat] else events, rest);
            if out.finished then Exactly(out.events, records, n, k) else Content(out.events) <= ChunkEvents(records[k..n])
  {
    var events := ChunkEvents(records[k..k']);
    HeadContent(records, k, k', beats);
    ContentAppend(if beats then events + [Heartbeat] else events, rest.events);
    SplitChunks(records, k, k', n);
    if rest.finished {
      var error :| Content(rest.events) == ChunkEvents(records[k'..n]) + [DoneEvent(records[n].status, error)];
      var last := [DoneEvent(records[n].status, error)];
      assert events + (ChunkEvents(records[k'..n]) + last) == ChunkEvents(records[k..n]) + last;
    }
  }

  lemma HeadContent(records: seq<Record>, a: nat, b: nat, beats: bool)
    requires a <= b <= |records|
    ensures var events := ChunkEvents(records[a..b]);
            Content(if beats then events + [Heartbeat] else events) == events
  {
    var events := ChunkEvents(records[a..b]);
    ChunksAreContent(records[a..b]);
    ContentAppend(events, [Heartbeat]);
    assert [Heartbeat][1..] == [] && Content([Heartbeat]) == Content([]) == [];
  }

  /**
   * However reads and writes interleave: a follower that returns has delivered every chunk of the attempt
   * once, in order, and then the final status once; one that is still running has delivered a prefix.
   */
  lemma FollowerIsExact(read: LineReader, records: seq<Record>, n: nat, start: real, every: real, polls: seq<Poll>)
    requires Reads(read) && Attempt(records, n, true) && records[n].status != ""
    requires Grows(polls, 0, Written(records[..n]), records[n].status, Written(records))
    ensures Delivered(Followed(read, TailState(0, ""), false, start, every, polls), records, n)
  {
    WrittenReads(read, records, n, true);
    WrittenReads(read, records[..n], n, false);
    FollowsFromStart(read, Written(records), Written(records[..n]), records, n, start, every, polls);
  }

  /** In particular with the reader that decodes the lines as the writer encodes them. */
  lemma DecodingFollowerIsExact(records: seq<Record>, n: nat, start: real, every: real, polls: seq<Poll>)
    requires Attempt(records, n, true) && records[n].status != ""
    requires Grows(polls, 0, Written(records[..n]), records[n].status, Written(records))
    ensures Delivered(Followed(Reader(Decode), TailState(0, ""), false, start, every, polls), records, n)
  {
    DecoderReads();
    FollowerIsExact(Reader(Decode), records, n, start, every, polls);
  }

  /** The chunks of the attempt in order, and after the last of them its status, or a prefix of that. */
  ghost predicate Delivered(out: Output, records: seq<Record>, n: nat)
    requires Attempt(records, n, true)
  {
    var content := Content(out.events);
    && (forall j | 0 <= j < n && j < |content| :: content[j] == ChunkEvent(records[j].text, Some(j)))
    && if out.finished then |content| == n + 1 && content[n].DoneEvent? && content[n].status == records[n].status
       else |content| <= n
  }

  lemma ExactlyDelivers(out: Output, records: seq<Record>, n: nat)
    requires Attempt(records, n, true)
    requires if out.finished then Exactly(out.events, records, n, 0) else Content(out.events) <= ChunkEvents(records[0..n])
    ensures Delivered(out, records, n)
  {
    ChunksOfAttempt(records, n, 0);
    if out.finished {
      var error :| Content(out.events) == ChunkEvents(records[0..n]) + [DoneEvent(records[n].status, error)];
    }
  }

  lemma FollowsFromStart(
      read: LineReader, whole: string, chunks: string, records: seq<Record>, n: nat, start: real, every: real, polls: seq<Poll>)
    requires Records(read, whole) == records && Attempt(records, n, true) && records[n].status != ""
    requires HoldsChunks(read, chunks, whole, records, n) && Grows(polls, 0, chunks, records[n].status, whole)
    ensures Delivered(Followed(read, TailState(0, ""), false, start, every, polls), records, n)
  {
    assert whole[..0] == "" && Rest("") == "" && Records(read, "") == [];
    FollowsExactly(read, whole, chunks, records, n, 0, 0, TailState(0, ""), false, start, every, polls);
    ExactlyDelivers(Followed(read, TailState(0, ""), false, start, every, polls), records, n);
  }

  /** The follower returns as soon as the job is gone or terminal. */
  lemma {:induction false} FollowerReturns(
      read: LineReader, tail: TailState, emitted: bool, lastBeat: real, every: real, polls: seq<Poll>, k: nat)
    requires k < |polls| && (polls[k].job.None? || polls[k].job.value.status.Terminal())
    ensures Followed(read, tail, emitted, lastBeat, every, polls).finished
    decreases k
  {
    var turn := TurnOf(read, tail, emitted, polls[0]);
    if !turn.finished {
      var now := polls[0].now;
      FollowerReturns(read, ReadStep(read, tail, polls[0].first).0, emitted || turn.events != [],
                      if Beats(every, lastBeat, now) then now else lastBeat, every, polls[1..], k - 1);
    }
  }

  /** Without a stream file the stored output arrives as one chunk, when there is any, and then the stored status. */
  lemma {:induction false} FollowerFallsBack(
      read: LineReader, tail: TailState, lastBeat: real, every: real, polls: seq<Poll>, k: nat)
    requires k < |polls| && forall i | 0 <= i <= k :: polls[i].first.Missing? && polls[i].second.Missing? && polls[i].job.Some?
    requires polls[k].job.value.status.Terminal() && forall i | 0 <= i < k :: !polls[i].job.value.status.Terminal()
    ensures var job, out := polls[k].job.value, Followed(read, tail, false, lastBeat, every, polls);
            var last := DoneEvent(StatusText(job.status), job.error);
            out.finished && Content(out.events) == if job.output == "" then [last] else [ChunkEvent(job.output, Some(0)), last]
    decreases k
  {
    var job := polls[k].job.value;
    var turn := TurnOf(read, tail, false, polls[0]);
    if k == 0 {
      var last := DoneEvent(StatusText(job.status), job.error);
      assert turn.finished;
      if job.output == "" {
        assert turn.events == [last] && [last][1..] == [];
      } else {
        var both := [ChunkEvent(job.output, Some(0)), last];
        assert turn.events == both && both[1..] == [last] && [last][1..] == [];
        assert Content([last]) == [last];
      }
    } else {
      var now := polls[0].now;
      var beats := Beats(every, lastBeat, now);
      assert turn == Output([], false);
      FollowerFallsBack(read, tail, if beats then now else lastBeat, every, polls[1..], k - 1);
      var rest := Followed(read, tail, false, if beats then now else lastBeat, every, polls[1..]);
      if beats {
        assert ([] + [Heartbeat] + rest.events)[1..] == rest.events;
      } else {
        PrependNothing(rest);
      }
    }
  }
}
