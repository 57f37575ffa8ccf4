/** Token streaming: one writer appends records to a file, and a follower tails it until the job is over. */
module Streaming {
  import opened Jobs
  import opened Ndjson
  import opened Text

  class StreamFile {
    var text: string
    var present: bool

    constructor ()
      ensures text == "" && !present
    {
      text, present := "", false;
    }
  }

  function Line(r: Record): string {
    match r
    case Chunk(i, text) => EncodeChunk(if i.Some? then i.value else 0, text)
    case Done(status, error) => EncodeDone(status, error)
  }

  /** The file a sequence of records makes. */
  function Written(records: seq<Record>): string {
    if records == [] then ""
    else Written(records[..|records| - 1]) + (Line(records[|records| - 1]) + "\n")
  }

  /** One attempt's records: chunks numbered from 0 and, once it is closed, one final record. */
  ghost predicate Attempt(records: seq<Record>, index: nat, closed: bool) {
    && |records| == index + (if closed then 1 else 0)
    && (forall k | 0 <= k < index :: records[k].Chunk? && records[k].i == Some(k) && records[k].text != "")
    && (closed ==> records[index].Done?)
  }

  lemma AttemptGoesOn(records: seq<Record>, index: nat, text: string)
    requires Attempt(records, index, false) && text != ""
    ensures Attempt(records + [Chunk(Some(index), text)], index + 1, false)
  {
  }

  class ChunkWriter {
    const file: StreamFile
    var handle: bool
    var index: nat
    var closed: bool

    /** The records of the current attempt. */
    ghost var written: seq<Record>

    ghost predicate Valid()
      reads this, file
    {
      && Attempt(written, index, closed)
      && (closed ==> !handle)
      && (handle || closed ==> file.present && file.text == Written(written))
    }

    constructor (file: StreamFile)
      ensures Valid() && this.file == file && !handle && !closed && written == []
    {
      this.file := file;
      handle, index, closed, written := false, 0, false, [];
    }

    method Open()
      requires Valid()
      modifies this, file
      ensures Valid() && handle && written == []
    {
      file.text, file.present := "", true;
      handle, index, closed, written := true, 0, false, [];
    }

    /** Starts the next attempt, unless the stream is finished. */
    method Reset()
      requires Valid()
      modifies this, file
      ensures Valid()
      ensures if old(closed) then written == old(written) && file.text == old(file.text) else handle && written == []
    {
      if closed {
        return;
      }
      Open();
    }

    method WriteChunk(text: string)
      requires Valid()
      modifies this, file
      ensures Valid() && handle == old(handle) && closed == old(closed)
      ensures if text != "" && old(handle) && !old(closed)
              then written == old(written) + [Chunk(Some(old(index)), text)]
              else written == old(written) && file.text == old(file.text)
    {
      if text == "" || closed || !handle {
        return;
      }
      AttemptGoesOn(written, index, text);
      Append(Chunk(Some(index), text));
      index := index + 1;
    }

    method Append(r: Record)
      requires handle && file.text == Written(written)
      modifies this`written, file`text
      ensures written == old(written) + [r] && file.text == Written(written)
    {
      file.text := file.text + (Line(r) + "\n");
      written := written + [r];
      assert written[..|written| - 1] == old(written);
    }

    /** The final record. Nothing after the first finish changes the file; without a handle the file starts over. */
    method Finish(status: string, error: string)
      requires Valid()
      modifies this, file
      ensures Valid() && closed
      ensures if old(closed) then written == old(written) && file.text == old(file.text)
              else written == (if old(handle) then old(written) else []) + [Done(status, error)]
    {
      if closed {
        return;
      }
      if !handle {
        Open();
      }
      Append(Done(status, error));
      handle, closed := false, true;
    }

    method Close()
      requires Valid()
      modifies this
      ensures Valid() && !handle && written == old(written) && closed == old(closed)
    {
      handle := false;
    }
  }

  lemma LineReads(read: LineReader, s: string, r: Record)
    requires Reads(read) && Rest(s) == "" && (r.Chunk? ==> r.i.Some?)
    ensures Records(read, s + (Line(r) + "\n")) == Records(read, s) + [r] && Rest(s + (Line(r) + "\n")) == ""
  {
    match r {
      case Chunk(i, text) => ChunkIsLine(i.value, text);
      case Done(status, error) => DoneIsLine(status, error);
    }
    LineAdds(read, s, Line(r));
  }

  lemma SplitLast(records: seq<Record>)
    requires records != []
    ensures records == records[..|records| - 1] + [records[|records| - 1]]
  {
  }

  /** A reader of a finished or growing file gets back exactly the records written. */
  lemma {:induction false} WrittenReads(read: LineReader, records: seq<Record>, index: nat, closed: bool)
    requires Reads(read) && Attempt(records, index, closed)
    ensures Records(read, Written(records)) == records && Rest(Written(records)) == ""
    decreases |records|
  {
    if records != [] {
      var before := records[..|records| - 1];
      SplitLast(records);
      WrittenReads(read, before, if closed then index else index - 1, false);
      LineReads(read, Written(before), records[|records| - 1]);
    }
  }

  // The tail.

  /** What one `read_new` finds: no file, a size but no way to open it, or the size `stat` gives and the text `open` sees later. */
  datatype Read = Missing | Unreadable(size: nat) | Snapshot(size: nat, text: string)

  datatype TailState = TailState(offset: nat, buf: string)

  function ReadStep(read: LineReader, s: TailState, r: Read): (TailState, seq<Record>) {
    if r.Missing? then (s, [])
    else
      var from := if r.size < s.offset then TailState(0, "") else s;
      if r.Unreadable? || from.offset >= |r.text| then (from, [])
      else
        var data := from.buf + r.text[from.offset..];
        (TailState(|r.text|, Rest(data)), Records(read, data))
  }

  class NdjsonTail {
    var offset: nat
    var buf: string

    constructor ()
      ensures State() == TailState(0, "")
    {
      offset, buf := 0, "";
    }

    function State(): TailState
      reads this
    {
      TailState(offset, buf)
    }

    static method ParseLine(parse: Parser, text: string) returns (found: seq<Record>)
      ensures found == Reader(parse)(text)
    {
      var line := Strip(text);
      if line == "" {
        return [];
      }
      var r := parse(line);
      return if r.Some? then [r.value] else [];
    }

    /** Takes the complete lines out of the buffer. */
    method Drain(parse: Parser) returns (records: seq<Record>)
      modifies this`buf
      ensures records == Records(Reader(parse), old(buf)) && buf == Rest(old(buf))
    {
      records := [];
      ghost var all, read := buf, Reader(parse);
      ghost var toCome := Records(read, all);
      while Newline(buf) < |buf|
        invariant toCome == Records(read, buf) && Records(read, all) == records + toCome
        invariant Rest(buf) == Rest(all)
        decreases |buf|
      {
        var n := Newline(buf);
        var found := ParseLine(parse, buf[..n]);
        buf := buf[n + 1..];
        toCome := Records(read, buf);
        Associate(records, found, toCome);
        records := records + found;
      }
    }

    method ReadNew(parse: Parser, r: Read) returns (records: seq<Record>)
      modifies this
      ensures State() == ReadStep(Reader(parse), old(State()), r).0
      ensures records == ReadStep(Reader(parse), old(State()), r).1
    {
      records := [];
      if r.Missing? {
        return;
      }
      if r.size < offset {
        offset, buf := 0, "";
      }
      if r.Unreadable? {
        return;
      }
      var data := if offset < |r.text| then r.text[offset..] else "";
      offset := if offset < |r.text| then |r.text| else offset;
      if data == "" {
        return;
      }
      buf := buf + data;
      records := Drain(parse);
    }
  }

  /**
   * Cutting the reading of a growing file anywhere makes no difference: after a read that starts where the
   * last one stopped, everything read so far is what the complete lines of the text hold.
   */
  lemma IncrementalIsBatch(read: LineReader, whole: string, c: nat, r: Read)
    requires c <= |whole| && r.Snapshot? && c <= r.size && c <= |r.text| && r.text <= whole
    ensures var (s, more) := ReadStep(read, TailState(c, Rest(whole[..c])), r);
            && s == TailState(|r.text|, Rest(r.text))
            && Records(read, r.text) == Records(read, whole[..c]) + more
  {
    var old', data := whole[..c], r.text[c..];
    assert r.text == old' + data;
    RecordsAppend(read, old', data);
    RestAppend(old', data);
    if data == "" {
      assert Rest(old') + data == Rest(old') && r.text == old';
      RestHoldsNothing(read, old');
    }
  }

  lemma {:induction false} RestHoldsNothing(read: LineReader, s: string)
    ensures Records(read, Rest(s)) == []
    decreases |s|
  {
    if Newline(s) < |s| { RestHoldsNothing(read, s[Newline(s) + 1..]); }
  }

  // Any number of reads.

  function TailAfter(read: LineReader, s: TailState, looks: seq<Read>): TailState
    decreases |looks|
  {
    if looks == [] then s else TailAfter(read, ReadStep(read, s, looks[0]).0, looks[1..])
  }

  function Got(read: LineReader, s: TailState, looks: seq<Read>): seq<Record>
    decreases |looks|
  {
    if looks == [] then [] else ReadStep(read, s, looks[0]).1 + Got(read, ReadStep(read, s, looks[0]).0, looks[1..])
  }

  /** Each look reads nothing, or a prefix of `whole` that goes at least as far as the one before. */
  predicate Cuts(looks: seq<Read>, c: nat, whole: string) {
    looks == []
    || (if !looks[0].Snapshot? then (looks[0].Unreadable? ==> c <= looks[0].size) && Cuts(looks[1..], c, whole)
        else c <= looks[0].size && c <= |looks[0].text| && looks[0].text <= whole && Cuts(looks[1..], |looks[0].text|, whole))
  }

  /** How far the last look that found a file went. */
  function Reached(looks: seq<Read>, c: nat): nat {
    if looks == [] then c else Reached(looks[1..], if looks[0].Snapshot? then |looks[0].text| else c)
  }

  /** One look from offset `c`, whatever the reader has in its buffer. */
  lemma OneLook(read: LineReader, whole: string, c: nat, buf: string, r: Read)
    requires r.Snapshot? && '\n' !in buf && c <= r.size && c <= |r.text| && r.text <= whole
    ensures ReadStep(read, TailState(c, buf), r)
            == (TailState(|r.text|, Rest(buf + whole[c..|r.text|])), Records(read, buf + whole[c..|r.text|]))
  {
    assert r.text[c..] == whole[c..|r.text|];
    if c == |r.text| {
      assert buf + whole[c..c] == buf;
      NewlineIsFirst(buf);
    }
  }

  /** The offsets at which a growing file was read make no difference, nor does the number of reads. */
  lemma {:induction false} AnyCutsAreBatch(read: LineReader, whole: string, c: nat, buf: string, looks: seq<Read>)
    requires '\n' !in buf && c <= |whole| && Cuts(looks, c, whole)
    ensures c <= Reached(looks, c) <= |whole|
    ensures TailAfter(read, TailState(c, buf), looks) == TailState(Reached(looks, c), Rest(buf + whole[c..Reached(looks, c)]))
    ensures Got(read, TailState(c, buf), looks) == Records(read, buf + whole[c..Reached(looks, c)])
    decreases |looks|
  {
    if looks == [] {
      assert buf + whole[c..c] == buf;
      NewlineIsFirst(buf);
    } else if !looks[0].Snapshot? {
      AnyCutsAreBatch(read, whole, c, buf, looks[1..]);
      NothingFirst(Got(read, TailState(c, buf), looks[1..]));
    } else {
      var m := |looks[0].text|;
      OneLook(read, whole, c, buf, looks[0]);
      var rest := Rest(buf + whole[c..m]);
      RestHasNoNewline(buf + whole[c..m]);
      AnyCutsAreBatch(read, whole, m, rest, looks[1..]);
      var n := Reached(looks, c);
      TwoPieces(buf, whole, c, m, n);
      RecordsAppend(read, buf + whole[c..m], whole[m..n]);
      RestAppend(buf + whole[c..m], whole[m..n]);
    }
  }

  lemma NothingFirst(records: seq<Record>)
    ensures [] + records == records
  {
  }

  lemma TwoPieces(buf: string, whole: string, c: nat, m: nat, n: nat)
    requires c <= m <= n <= |whole|
    ensures buf + whole[c..n] == buf + whole[c..m] + whole[m..n]
  {
  }

  lemma {:induction false} RestHasNoNewline(s: string)
    ensures '\n' !in Rest(s)
    decreases |s|
  {
    NewlineIsFirst(s);
    if Newline(s) < |s| { RestHasNoNewline(s[Newline(s) + 1..]); } else { assert s[..|s|] == s; }
  }

  // A new attempt in the same file, met by a reader whose offset is from the old one.

  /** A truncation that the reader sees as a smaller file restarts it: it reads the new text from the beginning. */
  lemma TruncationRestarts(read: LineReader, s: TailState, r: Read)
    requires r.Snapshot? && r.size < s.offset
    ensures ReadStep(read, s, r) == (TailState(|r.text|, Rest(r.text)), Records(read, r.text))
  {
    assert "" + r.text[0..] == r.text;
  }

  /** A reader takes at most one record from a line. */
  ghost predicate OneEach(read: LineReader) {
    forall line :: |read(line)| <= 1
  }

  /** The hypotheses on the reader hold of the one that decodes what the writer writes. */
  lemma DecoderReads()
    ensures Reads(Reader(Decode)) && OneEach(Reader(Decode))
  {
    DecodeReads();
  }

  lemma {:induction false} FewRecords(read: LineReader, s: string)
    requires OneEach(read)
    ensures |Records(read, s)| <= multiset(s)['\n']
    decreases |s|
  {
    var n := Newline(s);
    NewlineIsFirst(s);
    if n < |s| {
      assert s == s[..n] + ['\n'] + s[n + 1..];
      assert multiset(s) == multiset(s[..n]) + multiset{'\n'} + multiset(s[n + 1..]);
      FewRecords(read, s[n + 1..]);
    }
  }

  lemma LineHasNoNewline(r: Record)
    ensures '\n' !in Line(r)
  {
    match r {
      case Chunk(i, text) => ChunkIsLine(if i.Some? then i.value else 0, text);
      case Done(status, error) => DoneIsLine(status, error);
    }
  }

  lemma {:induction false} WrittenLines(records: seq<Record>)
    ensures multiset(Written(records))['\n'] == |records|
    decreases |records|
  {
    if records != [] {
      var last := records[|records| - 1];
      WrittenLines(records[..|records| - 1]);
      LineHasNoNewline(last);
      assert multiset(Line(last) + "\n") == multiset(Line(last)) + multiset{'\n'};
    }
  }

  lemma {:induction false} WrittenStarts(records: seq<Record>) returns (rest: string)
    requires records != []
    ensures Written(records) == Line(records[0]) + "\n" + rest
    decreases |records|
  {
    var before, last := records[..|records| - 1], records[|records| - 1];
    if before == [] {
      assert "" + (Line(last) + "\n") == Line(last) + "\n" + "";
      return "";
    }
    rest := WrittenStarts(before);
    ThreePieces(Line(records[0]) + "\n", rest, Line(last) + "\n");
    rest := rest + (Line(last) + "\n");
  }

  lemma ThreePieces(a: string, b: string, c: string)
    ensures a + b + c == a + (b + c)
  {
  }

  /** Beyond the complete lines among the first `c` characters no records are left for the reader. */
  lemma SkippedLinesAreMissed(read: LineReader, whole: string, c: nat, buf: string)
    requires OneEach(read) && '\n' !in buf && c <= |whole|
    ensures |Records(read, buf + whole[c..])| + multiset(whole[..c])['\n'] <= multiset(whole)['\n']
  {
    FewRecords(read, buf + whole[c..]);
    assert whole == whole[..c] + whole[c..];
    assert multiset(whole) == multiset(whole[..c]) + multiset(whole[c..]);
    assert multiset(buf + whole[c..]) == multiset(buf) + multiset(whole[c..]);
  }

  /** With `c` inside the first line, what is left of that line is glued to the buffer, and the other lines are read. */
  lemma FirstLineIsGlued(read: LineReader, line: string, rest: string, c: nat, buf: string)
    requires '\n' !in line && '\n' !in buf && c <= |line|
    ensures Records(read, buf + (line + "\n" + rest)[c..]) == read(buf + line[c..]) + Records(read, rest)
    ensures Records(read, line + "\n" + rest) == read(line) + Records(read, rest)
  {
    Glued(buf, line, rest, c);
    OneLine(read, buf + line[c..]);
    RecordsAppend(read, buf + line[c..] + "\n", rest);
    OneLine(read, line);
    RecordsAppend(read, line + "\n", rest);
    assert "" + rest == rest;
  }

  lemma Glued(buf: string, line: string, rest: string, c: nat)
    requires c <= |line|
    ensures buf + (line + "\n" + rest)[c..] == buf + line[c..] + "\n" + rest
  {
  }

  lemma FirstNewline(line: string, rest: string, c: nat)
    requires '\n' !in line && c <= |line + "\n" + rest|
    ensures '\n' in (line + "\n" + rest)[..c] <==> c > |line|
    ensures '\n' in (line + "\n" + rest)[..c] ==> multiset((line + "\n" + rest)[..c])['\n'] > 0
  {
    var whole := line + "\n" + rest;
    if c > |line| {
      assert whole[..c][|line|] == '\n';
    } else {
      assert whole[..c] == line[..c];
    }
  }

  /**
   * The looks of a reader that is still at offset `c` of the old attempt: any number, until the new one is
   * complete. The first of them finds as much of the new text as `stat` said, or less than `c`.
   */
  ghost predicate Meets(c: nat, looks: seq<Read>, whole: string) {
    && looks != [] && looks[0].Snapshot? && looks[0].text <= whole && (looks[0].size < c || c <= |looks[0].text|)
    && Cuts(looks[1..], |looks[0].text|, whole) && Reached(looks, 0) == |whole|
  }

  /** Seen smaller, the new attempt is read from its beginning. */
  lemma SmallerIsReadWhole(read: LineReader, c: nat, buf: string, looks: seq<Read>, whole: string)
    requires Meets(c, looks, whole) && looks[0].size < c
    ensures Got(read, TailState(c, buf), looks) == Records(read, whole)
  {
    var m := |looks[0].text|;
    TruncationRestarts(read, TailState(c, buf), looks[0]);
    RestHasNoNewline(looks[0].text);
    AnyCutsAreBatch(read, whole, m, Rest(looks[0].text), looks[1..]);
    assert whole == looks[0].text + whole[m..] && whole[m..|whole|] == whole[m..];
    RecordsAppend(read, looks[0].text, whole[m..]);
  }

  /** Otherwise its first `c` characters are not read. */
  lemma RegrownIsReadFromOffset(read: LineReader, c: nat, buf: string, looks: seq<Read>, whole: string)
    requires Meets(c, looks, whole) && looks[0].size >= c && '\n' !in buf
    ensures c <= |whole| && Got(read, TailState(c, buf), looks) == Records(read, buf + whole[c..])
  {
    assert Cuts(looks, c, whole);
    AnyCutsAreBatch(read, whole, c, buf, looks);
    assert Reached(looks, c) == |whole| && whole[c..|whole|] == whole[c..];
  }

  /**
   * A retry, met at offset `c > 0` with an incomplete line `buf` in the buffer. If the file is seen smaller than
   * `c`, all its records arrive. If not, and a complete line is among its first `c` characters, strictly fewer
   * do; with `c` inside the first line, that line is glued to the buffer and the others arrive.
   */
  lemma RetryIsRead(read: LineReader, c: nat, buf: string, looks: seq<Read>, records: seq<Record>, index: nat, closed: bool)
    requires Reads(read) && OneEach(read) && Attempt(records, index, closed) && records != [] && '\n' !in buf
    requires c > 0 && Meets(c, looks, Written(records))
    ensures looks[0].size < c ==> Got(read, TailState(c, buf), looks) == records
    ensures looks[0].size >= c ==>
              c <= |Written(records)| && ('\n' in Written(records)[..c] <==> c > |Line(records[0])|)
    ensures looks[0].size >= c && '\n' in Written(records)[..c] ==> |Got(read, TailState(c, buf), looks)| < |records|
    ensures looks[0].size >= c && '\n' !in Written(records)[..c] ==>
              && c <= |Line(records[0])|
              && Got(read, TailState(c, buf), looks) == read(buf + Line(records[0])[c..]) + records[1..]
  {
    var whole := Written(records);
    WrittenReads(read, records, index, closed);
    if looks[0].size < c {
      SmallerIsReadWhole(read, c, buf, looks, whole);
    } else {
      RegrownIsReadFromOffset(read, c, buf, looks, whole);
      var rest := WrittenStarts(records);
      LineHasNoNewline(records[0]);
      FirstNewline(Line(records[0]), rest, c);
      if '\n' in whole[..c] {
        SkippedLinesAreMissed(read, whole, c, buf);
        WrittenLines(records);
      } else {
        FirstLineIsGlued(read, Line(records[0]), rest, c, buf);
        TailOf(read(Line(records[0])), Records(read, rest), records);
      }
    }
  }

  lemma TailOf(first: seq<Record>, rest: seq<Record>, records: seq<Record>)
    requires first + rest == records && |first| == 1
    ensures rest == records[1..]
  {
  }

  /** So a retry is read whole exactly when it is seen smaller, or its glued first line reads as the line itself. */
  lemma RetryIsReadWholeIff(read: LineReader, c: nat, buf: string, looks: seq<Read>, records: seq<Record>, index: nat, closed: bool)
    requires Reads(read) && OneEach(read) && Attempt(records, index, closed) && records != [] && '\n' !in buf
    requires c > 0 && Meets(c, looks, Written(records))
    ensures Got(read, TailState(c, buf), looks) == records <==>
            || looks[0].size < c
            || (c <= |Line(records[0])| && read(buf + Line(records[0])[c..]) == [records[0]])
  {
    RetryIsRead(read, c, buf, looks, records, index, closed);
    if looks[0].size >= c && c <= |Line(records[0])| {
      SameHead(read(buf + Line(records[0])[c..]), records);
    }
  }

  lemma SameHead(first: seq<Record>, records: seq<Record>)
    requires records != []
    ensures first + records[1..] == records <==> first == [records[0]]
  {
    if first + records[1..] == records {
      assert |first| == 1 && (first + records[1..])[0] == first[0];
    }
  }

  /**
   * A retry that has already grown past the old offset goes unnoticed: with a first line as long as the one
   * already read, that line is never delivered.
   */
  lemma RegrownRetryIsMissed(read: LineReader, old': string, first: string, second: string)
    requires '\n' !in old' && '\n' !in first && '\n' !in second && |first| == |old'|
    ensures
      var before, after := old' + "\n", first + "\n" + (second + "\n");
      var (s, _) := ReadStep(read, TailState(0, ""), Snapshot(|before|, before));
      && ReadStep(read, s, Snapshot(|after|, after)).1 == read(second)
      && Records(read, after) == read(first) + read(second)
  {
    var before, after := old' + "\n", first + "\n" + (second + "\n");
    OneLine(read, old');
    OneLine(read, first);
    OneLine(read, second);
    LineAdds(read, first + "\n", second);
    assert "" + before[0..] == before;
    assert "" + after[|before|..] == second + "\n";
  }

  // The follower.

  datatype Event = ChunkEvent(text: string, i: Option<nat>) | DoneEvent(status: string, error: string) | Heartbeat

  datatype JobView = JobView(status: Status, output: string, error: string)

  /** One turn of the loop: a read, the stored job, the read after a terminal status, and the time. */
  datatype Poll = Poll(first: Read, job: Option<JobView>, second: Read, now: real)

  function StatusText(s: Status): string {
    match s
    case Queued => "queued"
    case Processing => "processing"
    case Completed => "completed"
    case Failed => "failed"
    case Cancelled => "cancelled"
  }

  function OrElse(text: string, default: string): string {
    if text != "" then text else default
  }

  /** Events for the client, and whether the last of them ends the stream. */
  datatype Output = Output(events: seq<Event>, finished: bool)

  function Prepend(events: seq<Event>, rest: Output): Output {
    Output(events + rest.events, rest.finished)
  }

  lemma PrependTwice(a: seq<Event>, b: seq<Event>, rest: Output)
    ensures Prepend(a, Prepend(b, rest)) == Prepend(a + b, rest)
  {
    assert a + (b + rest.events) == a + b + rest.events;
  }

  lemma PrependNothing(rest: Output)
    ensures Prepend([], rest) == rest
  {
    assert [] + rest.events == rest.events;
  }

  /** The events of a batch of records, up to and including the first final one. */
  function Emit(records: seq<Record>, status: string, error: string): Output {
    if records == [] then Output([], false)
    else match records[0]
      case Done(s, e) => Output([DoneEvent(OrElse(s, status), OrElse(e, error))], true)
      case Chunk(i, text) =>
        var rest := Emit(records[1..], status, error);
        if text == "" then rest else Prepend([ChunkEvent(text, i)], rest)
  }

  /** What follows once the job is terminal: the rest of the file, or its output if nothing was streamed. */
  function LastEvents(read: LineReader, tail: TailState, emitted: bool, second: Read, job: JobView): seq<Event> {
    var out := Emit(ReadStep(read, tail, second).1, StatusText(job.status), job.error);
    if out.finished then out.events
    else if !emitted && out.events == [] && job.output != "" then
      [ChunkEvent(job.output, Some(0)), DoneEvent(StatusText(job.status), job.error)]
    else out.events + [DoneEvent(StatusText(job.status), job.error)]
  }

  /** One turn, without its heartbeat. */
  function TurnOf(read: LineReader, tail: TailState, emitted: bool, p: Poll): Output {
    var step := ReadStep(read, tail, p.first);
    var out := Emit(step.1, "completed", "");
    if out.finished then out
    else if p.job.None? then Output(out.events + [DoneEvent("failed", "job not found")], true)
    else if p.job.value.status.Terminal() then
      Output(out.events + LastEvents(read, step.0, emitted || out.events != [], p.second, p.job.value), true)
    else out
  }

  predicate Beats(every: real, lastBeat: real, now: real) {
    every > 0.0 && now - lastBeat >= every
  }

  /** The events of a whole run of polls. */
  function Followed(
      read: LineReader, tail: TailState, emitted: bool, lastBeat: real, every: real, polls: seq<Poll>): Output
    decreases |polls|
  {
    if polls == [] then Output([], false)
    else
      var now := polls[0].now;
      var turn := TurnOf(read, tail, emitted, polls[0]);
      var next := ReadStep(read, tail, polls[0].first).0;
      var some := emitted || turn.events != [];
      if turn.finished then turn
      else if Beats(every, lastBeat, now) then
        Prepend(turn.events + [Heartbeat], Followed(read, next, some, now, every, polls[1..]))
      else Prepend(turn.events, Followed(read, next, some, lastBeat, every, polls[1..]))
  }

  method EmitRecords(records: seq<Record>, status: string, error: string) returns (events: seq<Event>, done: bool)
    ensures Output(events, done) == Emit(records, status, error)
  {
    events := [];
    var i := 0;
    ghost var toCome := Emit(records, status, error);
    assert records[0..] == records;
    PrependNothing(toCome);
    while i < |records|
      invariant 0 <= i <= |records|
      invariant toCome == Emit(records[i..], status, error)
      invariant Emit(records, status, error) == Prepend(events, toCome)
    {
      var r := records[i];
      assert records[i..][0] == r && records[i..][1..] == records[i + 1..];
      match r
      case Done(s, e) =>
        events := events + [DoneEvent(OrElse(s, status), OrElse(e, error))];
        return events, true;
      case Chunk(index, text) =>
        toCome := Emit(records[i + 1..], status, error);
        if text != "" {
          PrependTwice(events, [ChunkEvent(text, index)], toCome);
          events := events + [ChunkEvent(text, index)];
        }
        i := i + 1;
    }
    done := false;
  }

  method FollowTurn(parse: Parser, tail: NdjsonTail, emitted: bool, p: Poll) returns (events: seq<Event>, finished: bool)
    modifies tail
    ensures Output(events, finished) == TurnOf(Reader(parse), old(tail.State()), emitted, p)
    ensures !finished ==> tail.State() == ReadStep(Reader(parse), old(tail.State()), p.first).0
  {
    var records := tail.ReadNew(parse, p.first);
    events, finished := EmitRecords(records, "completed", "");
    if finished {
      return;
    }
    if p.job.None? {
      return events + [DoneEvent("failed", "job not found")], true;
    }
    var job := p.job.value;
    if job.status.Terminal() {
      var rest := tail.ReadNew(parse, p.second);
      var more, done := EmitRecords(rest, StatusText(job.status), job.error);
      if !done {
        if !emitted && events == [] && more == [] && job.output != "" {
          more := [ChunkEvent(job.output, Some(0))];
        }
        more := more + [DoneEvent(StatusText(job.status), job.error)];
      }
      return events + more, true;
    }
  }

  method FollowJobEvents(parse: Parser, polls: seq<Poll>, start: real, every: real) returns (events: seq<Event>, finished: bool)
    ensures Output(events, finished) == Followed(Reader(parse), TailState(0, ""), false, start, every, polls)
  {
    var tail := new NdjsonTail();
    var lastBeat, emitted := start, false;
    events := [];
    ghost var read := Reader(parse);
    ghost var all := Followed(read, TailState(0, ""), false, start, every, polls);
    ghost var toCome := all;
    var i := 0;
    assert polls[0..] == polls;
    PrependNothing(all);
    while i < |polls|
      invariant 0 <= i <= |polls| && fresh(tail)
      invariant toCome == Followed(read, tail.State(), emitted, lastBeat, every, polls[i..])
      invariant all == Prepend(events, toCome)
    {
      var now := polls[i].now;
      assert polls[i..][0] == polls[i] && polls[i..][1..] == polls[i + 1..];
      var more, done := FollowTurn(parse, tail, emitted, polls[i]);
      if done {
        return events + more, true;
      }
      emitted := emitted || more != [];
      if Beats(every, lastBeat, now) {
        lastBeat := now;
        more := more + [Heartbeat];
      }
      toCome := Followed(read, tail.State(), emitted, lastBeat, every, polls[i + 1..]);
      PrependTwice(events, more, toCome);
      events := events + more;
      i := i + 1;
    }
    finished := false;
  }
}
