/** The lines of a stream file: JSON records, one per line, and what a reader makes of any text. */
module Ndjson {
  import opened Decimals
  import opened Jobs
  import opened Text

  /** A record as the follower reads it; a missing or empty field is empty here. */
  datatype Record = Chunk(i: Option<nat>, text: string) | Done(status: string, error: string)

  // Encoding.

  const HEX := "0123456789abcdef"

  /** One character of a JSON string, as `json.dumps(..., ensure_ascii=False)` writes it. */
  function Escape(c: char): string {
    if c == '"' then "\\\""
    else if c == '\\' then "\\\\"
    else if c == '\n' then "\\n"
    else if c == '\r' then "\\r"
    else if c == '\t' then "\\t"
    else if c == '\U{08}' then "\\b"
    else if c == '\U{0C}' then "\\f"
    else if c < ' ' then "\\u00" + [HEX[c as int / 16], HEX[c as int % 16]]
    else [c]
  }

  function EscapeAll(s: string): string {
    if s == "" then "" else Escape(s[0]) + EscapeAll(s[1..])
  }

  const CHUNK_HEAD := "{\"i\": "
  const CHUNK_TEXT := ", \"text\": \""
  const DONE_HEAD := "{\"done\": true, \"status\": \""
  const DONE_ERROR := ", \"error\": \""

  function EncodeChunk(i: nat, text: string): string {
    CHUNK_HEAD + (Decimal(i) + (CHUNK_TEXT + (EscapeAll(text) + "\"}")))
  }

  function EncodeDone(status: string, error: string): string {
    DONE_HEAD + (EscapeAll(status) + "\"" + ErrorPart(error))
  }

  function ErrorPart(error: string): string {
    if error == "" then "}" else DONE_ERROR + (EscapeAll(error) + "\"}")
  }

  // Decoding what the writer writes.

  function HexValue(c: char): Option<nat> {
    if '0' <= c <= '9' then Some(c as int - '0' as int)
    else if 'a' <= c <= 'f' then Some(c as int - 'a' as int + 10)
    else None
  }

  /** The character of one escape sequence and the number of characters it takes. */
  function Unescape(s: string): Option<(char, nat)> {
    if |s| < 2 then None
    else if s[1] == '"' || s[1] == '\\' then Some((s[1], 2))
    else if s[1] == 'n' then Some(('\n', 2))
    else if s[1] == 'r' then Some(('\r', 2))
    else if s[1] == 't' then Some(('\t', 2))
    else if s[1] == 'b' then Some(('\U{08}', 2))
    else if s[1] == 'f' then Some(('\U{0C}', 2))
    else if s[1] == 'u' && |s| >= 6 && s[2] == '0' && s[3] == '0' && HexValue(s[4]).Some? && HexValue(s[5]).Some? then
      Some(((HexValue(s[4]).value * 16 + HexValue(s[5]).value) as char, 6))
    else None
  }

  /** A string up to its closing quote, and what follows it. */
  function ReadString(s: string): Option<(string, string)>
    decreases |s|
  {
    if s == "" || s[0] < ' ' then None
    else if s[0] == '"' then Some(("", s[1..]))
    else
      var first := if s[0] == '\\' then Unescape(s) else Some((s[0], 1));
      if first.None? || first.value.1 == 0 || first.value.1 > |s| then None
      else
        var rest := ReadString(s[first.value.1..]);
        if rest.None? then None else Some(([first.value.0] + rest.value.0, rest.value.1))
  }

  function After(s: string, head: string): Option<string> {
    if head <= s then Some(s[|head|..]) else None
  }

  function DecodeChunk(rest: string): Option<Record> {
    var i := ReadNat(rest, 0);
    var body := After(i.1, CHUNK_TEXT);
    if body.None? then None
    else
      var text := ReadString(body.value);
      if text.None? || text.value.1 != "}" then None else Some(Chunk(Some(i.0), text.value.0))
  }

  function DecodeDone(rest: string): Option<Record> {
    var status := ReadString(rest);
    if status.None? then None
    else if status.value.1 == "}" then Some(Done(status.value.0, ""))
    else
      var body := After(status.value.1, DONE_ERROR);
      if body.None? then None
      else
        var error := ReadString(body.value);
        if error.None? || error.value.1 != "}" then None else Some(Done(status.value.0, error.value.0))
  }

  function Decode(line: string): Option<Record> {
    var chunk := After(line, CHUNK_HEAD);
    if chunk.Some? then DecodeChunk(chunk.value)
    else
      var done := After(line, DONE_HEAD);
      if done.Some? then DecodeDone(done.value) else None
  }

  lemma UnescapeEscape(c: char, tail: string)
    ensures Escape(c) != "" && Escape(c)[0] >= ' ' && Escape(c)[0] != '"'
    ensures Escape(c)[0] == '\\' ==> Unescape(Escape(c) + tail) == Some((c, |Escape(c)|))
    ensures Escape(c)[0] != '\\' ==> Escape(c) == [c]
  {
  }

  lemma {:induction false} ReadEscaped(s: string, tail: string)
    ensures ReadString(EscapeAll(s) + "\"" + tail) == Some((s, tail))
  {
    if s == "" {
      assert (EscapeAll(s) + "\"" + tail)[1..] == tail;
    } else {
      var more := EscapeAll(s[1..]) + "\"" + tail;
      assert EscapeAll(s) + "\"" + tail == Escape(s[0]) + more;
      UnescapeEscape(s[0], more);
      assert (Escape(s[0]) + more)[|Escape(s[0])|..] == more;
      ReadEscaped(s[1..], tail);
      assert [s[0]] + s[1..] == s;
    }
  }

  lemma AfterHead(head: string, rest: string)
    ensures After(head + rest, head) == Some(rest)
  {
  }

  lemma ChunkBody(i: nat, text: string)
    ensures DecodeChunk(Decimal(i) + (CHUNK_TEXT + (EscapeAll(text) + "\"}"))) == Some(Chunk(Some(i), text))
  {
    var tail := EscapeAll(text) + "\"}";
    assert tail == EscapeAll(text) + "\"" + "}";
    ReadDecimal(i, CHUNK_TEXT + tail);
    AfterHead(CHUNK_TEXT, tail);
    ReadEscaped(text, "}");
  }

  lemma DoneBody(status: string, error: string)
    ensures DecodeDone(EscapeAll(status) + "\"" + ErrorPart(error)) == Some(Done(status, error))
  {
    var tail := ErrorPart(error);
    ReadEscaped(status, tail);
    if error != "" {
      var last := EscapeAll(error) + "\"}";
      assert last == EscapeAll(error) + "\"" + "}";
      AfterHead(DONE_ERROR, last);
      ReadEscaped(error, "}");
      assert tail[0] == ',';
    }
  }

  /** What the writer writes, a reader reads back. */
  lemma ChunkRoundTrip(i: nat, text: string)
    ensures Decode(EncodeChunk(i, text)) == Some(Chunk(Some(i), text))
  {
    AfterHead(CHUNK_HEAD, Decimal(i) + (CHUNK_TEXT + (EscapeAll(text) + "\"}")));
    ChunkBody(i, text);
  }

  lemma HeadsDiffer(rest: string)
    ensures After(DONE_HEAD + rest, CHUNK_HEAD) == None
  {
    assert (DONE_HEAD + rest)[2] == 'd' && CHUNK_HEAD[2] == 'i';
  }

  lemma DoneRoundTrip(status: string, error: string)
    ensures Decode(EncodeDone(status, error)) == Some(Done(status, error))
  {
    var rest := EscapeAll(status) + "\"" + ErrorPart(error);
    HeadsDiffer(rest);
    AfterHead(DONE_HEAD, rest);
    DoneBody(status, error);
  }

  // Lines.

  lemma EscapeHasNoNewline(c: char)
    ensures '\n' !in Escape(c)
  {
  }

  lemma {:induction false} EscapedHasNoNewline(s: string)
    ensures '\n' !in EscapeAll(s)
  {
    if s != "" {
      EscapedHasNoNewline(s[1..]);
      EscapeHasNoNewline(s[0]);
    }
  }

  predicate IsLine(s: string) {
    '\n' !in s && s != "" && s[0] == '{' && s[|s| - 1] == '}'
  }

  lemma ChunkIsLine(i: nat, text: string)
    ensures IsLine(EncodeChunk(i, text))
  {
    DecimalIsDigits(i);
    EscapedHasNoNewline(text);
    var tail := CHUNK_TEXT + (EscapeAll(text) + "\"}");
    assert '\n' !in tail;
  }

  lemma DoneIsLine(status: string, error: string)
    ensures IsLine(EncodeDone(status, error))
  {
    EscapedHasNoNewline(status);
    ErrorPartEnds(error);
    Ends(DONE_HEAD, EscapeAll(status) + "\"", ErrorPart(error));
  }

  lemma ErrorPartEnds(error: string)
    ensures '\n' !in ErrorPart(error) && ErrorPart(error) != "" && ErrorPart(error)[|ErrorPart(error)| - 1] == '}'
  {
    EscapedHasNoNewline(error);
    Ends(DONE_ERROR, EscapeAll(error), "\"}");
  }

  lemma Ends(a: string, b: string, c: string)
    requires c != ""
    ensures (a + (b + c))[|a + (b + c)| - 1] == c[|c| - 1]
    ensures '\n' in a + (b + c) ==> '\n' in a || '\n' in b || '\n' in c
  {
  }

  /** How a line is parsed (nothing for a line that is no JSON object), and what a reader takes from it. */
  type Parser = string -> Option<Record>
  type LineReader = string -> seq<Record>

  /** The position of the first newline, or the length of the text. */
  function Newline(s: string): (n: nat)
    ensures n <= |s|
  {
    if s == "" || s[0] == '\n' then 0 else 1 + Newline(s[1..])
  }

  lemma {:induction false} NewlineIsFirst(s: string)
    ensures '\n' !in s[..Newline(s)] && (Newline(s) < |s| ==> s[Newline(s)] == '\n')
    ensures '\n' !in s ==> Newline(s) == |s|
  {
    if s != "" && s[0] != '\n' {
      NewlineIsFirst(s[1..]);
      assert s[..Newline(s)] == [s[0]] + s[1..][..Newline(s[1..])];
    }
  }

  /** The record of one line, if it is not blank and parses. */
  function LineRecords(parse: Parser, line: string): seq<Record> {
    var stripped := Strip(line);
    if stripped == "" || parse(stripped).None? then [] else [parse(stripped).value]
  }

  function Reader(parse: Parser): LineReader {
    (line: string) => LineRecords(parse, line)
  }

  /** The records of the complete lines of a text. */
  function Records(read: LineReader, s: string): seq<Record>
    decreases |s|
  {
    var n := Newline(s);
    if n == |s| then [] else read(s[..n]) + Records(read, s[n + 1..])
  }

  /** What follows the last newline. */
  function Rest(s: string): string
    decreases |s|
  {
    var n := Newline(s);
    if n == |s| then s else Rest(s[n + 1..])
  }

  lemma {:induction false} NewlineAppend(a: string, b: string)
    ensures Newline(a) < |a| ==> Newline(a + b) == Newline(a)
    ensures Newline(a) == |a| ==> Newline(a + b) == |a| + Newline(b)
  {
    if a == "" {
      assert a + b == b;
    } else if a[0] != '\n' {
      assert (a + b)[1..] == a[1..] + b;
      NewlineAppend(a[1..], b);
    }
  }

  lemma {:induction false} RestAppend(a: string, b: string)
    ensures Rest(a + b) == Rest(Rest(a) + b)
    decreases |a|
  {
    var n := Newline(a);
    NewlineAppend(a, b);
    if n < |a| {
      assert (a + b)[n + 1..] == a[n + 1..] + b;
      RestAppend(a[n + 1..], b);
    }
  }

  lemma Associate(a: seq<Record>, b: seq<Record>, c: seq<Record>)
    ensures a + (b + c) == a + b + c
  {
  }

  /** Reading a text in two pieces, carrying the incomplete line over, is reading it at once. */
  lemma {:induction false} RecordsAppend(read: LineReader, a: string, b: string)
    ensures Records(read, a + b) == Records(read, a) + Records(read, Rest(a) + b)
    decreases |a|
  {
    var n := Newline(a);
    NewlineAppend(a, b);
    if n < |a| {
      assert (a + b)[..n] == a[..n] && (a + b)[n + 1..] == a[n + 1..] + b;
      RecordsAppend(read, a[n + 1..], b);
      Associate(read(a[..n]), Records(read, a[n + 1..]), Records(read, Rest(a) + b));
    }
  }

  /** A shorter reading sees a prefix of the records. */
  lemma RecordsPrefix(read: LineReader, a: string, whole: string)
    requires a <= whole
    ensures Records(read, a) <= Records(read, whole)
  {
    assert whole == a + whole[|a|..];
    RecordsAppend(read, a, whole[|a|..]);
  }

  /** The reader reads what the writer writes. */
  ghost predicate Reads(read: LineReader) {
    && (forall i: nat, text: string :: read(EncodeChunk(i, text)) == [Chunk(Some(i), text)])
    && forall status: string, error: string :: read(EncodeDone(status, error)) == [Done(status, error)]
  }

  lemma ReaderOfLine(parse: Parser, line: string, r: Record)
    requires IsLine(line) && parse(line) == Some(r)
    ensures Reader(parse)(line) == [r]
  {
    StripProjects(line);
  }

  /** `Decode`, which reads every line the writer can write, makes such a reader. */
  lemma DecodeReads()
    ensures Reads(Reader(Decode))
  {
    forall i: nat, text: string ensures Reader(Decode)(EncodeChunk(i, text)) == [Chunk(Some(i), text)] {
      ChunkIsLine(i, text);
      ChunkRoundTrip(i, text);
      ReaderOfLine(Decode, EncodeChunk(i, text), Chunk(Some(i), text));
    }
    forall status: string, error: string ensures Reader(Decode)(EncodeDone(status, error)) == [Done(status, error)] {
      DoneIsLine(status, error);
      DoneRoundTrip(status, error);
      ReaderOfLine(Decode, EncodeDone(status, error), Done(status, error));
    }
  }

  lemma OneLine(read: LineReader, line: string)
    requires '\n' !in line
    ensures Records(read, line + "\n") == read(line) && Rest(line + "\n") == ""
  {
    var t := line + "\n";
    NewlineAppend(line, "\n");
    NewlineIsFirst(line);
    assert t[..|line|] == line && t[|line| + 1..] == "";
  }

  /** A line written to the end of a file whose lines are complete adds its records. */
  lemma LineAdds(read: LineReader, s: string, line: string)
    requires Rest(s) == "" && '\n' !in line
    ensures Records(read, s + (line + "\n")) == Records(read, s) + read(line) && Rest(s + (line + "\n")) == ""
  {
    OneLine(read, line);
    RecordsAppend(read, s, line + "\n");
    RestAppend(s, line + "\n");
    assert "" + (line + "\n") == line + "\n";
  }
}
