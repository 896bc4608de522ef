/** How much the parser buffers, and what the cuts of a stream change at the size caps.
    (projects/05-arcserve/src/protocol/http_parser.cpp) */
module HttpLimits {
  import opened HttpParser
  import opened HttpSession

  // ----- the line buffer -----

  /** While a request line is unfinished the buffer takes whole chunks, and passes the cap exactly with a
      chunk that is "\r" alone, and then by any number of them. */
  lemma RequestBuffer(p: Parser, data: string)
    requires p.phase == RequestLine && ParseRequestLine(p, data).2 == NeedMoreData
    ensures var q := ParseRequestLine(p, data).0;
            q.line == p.line + data && (|q.line| > MAX_REQUEST_LINE <==> data == "\r" && |p.line| >= MAX_REQUEST_LINE)
  {
  }

  /** While the headers are unfinished, the header bytes seen and buffered pass the cap by at most one, and
      exactly when the last line is a lone "\r" after MAX_HEADER_BYTES bytes. */
  lemma {:induction false} HeaderBuffer(p: Parser, data: string)
    requires p.phase == Headers && ParseHeaders(p, data).2 == NeedMoreData && p.seen <= MAX_HEADER_BYTES
    ensures Bounded(ParseHeaders(p, data).0)
    decreases |data|, 0
  {
    if SplitCrlf(p.line, data) {
      AfterLine(p, p.line[..|p.line| - 1], data[1..]);
    } else if Crlf(data) < |data| {
      AfterLine(p, p.line + data[..Crlf(data)], data[Crlf(data) + 2..]);
    } else if p.line == "" && (data == "" || data == "\r") {
      assert p.line + data == data;
    }
  }

  predicate Bounded(q: Parser) {
    && q.seen <= MAX_HEADER_BYTES
    && (q.seen + |q.line| > MAX_HEADER_BYTES ==> q.line == "\r" && q.seen == MAX_HEADER_BYTES)
  }

  lemma {:induction false} AfterLine(p: Parser, line: string, rest: string)
    requires p.phase == Headers && p.seen <= MAX_HEADER_BYTES
    requires var (q, r) := ConsumeHeaderLine(p, line); AfterHeaderLine(q.(line := ""), rest, r).2 == NeedMoreData
    ensures var (q, r) := ConsumeHeaderLine(p, line); Bounded(AfterHeaderLine(q.(line := ""), rest, r).0)
    decreases |rest|, 1
  {
    var (q, r) := ConsumeHeaderLine(p, line);
    HeaderBuffer(q.(line := ""), rest);
  }

  function Crs(n: nat): string {
    seq(n, _ => '\r')
  }

  function CrChunks(n: nat): seq<string> {
    seq(n, _ => "\r")
  }

  /** A stream of carriage returns, one in each chunk, is buffered without bound. */
  lemma {:induction false} BufferGrows(k: nat, n: nat)
    ensures RunChunks(FRESH.(line := Crs(k)), CrChunks(n)) == Trace([], None, FRESH.(line := Crs(k + n)), n)
    decreases n
  {
    if n > 0 {
      var p := FRESH.(line := Crs(k));
      assert CrChunks(n)[0] == "\r" && CrChunks(n)[1..] == CrChunks(n - 1);
      assert Crs(k) + "\r" == Crs(k + 1);
      OneCr(p);
      BufferGrows(k + 1, n - 1);
    }
  }

  lemma OneCr(p: Parser)
    requires p.phase == RequestLine
    ensures RunChunk(p, "\r") == Trace([], None, p.(line := p.line + "\r"), 1)
  {
    assert Crlf("\r") == 1;
    assert ParseRequestLine(p, "\r") == (p.(line := p.line + "\r"), "", NeedMoreData);
  }

  // ----- cuts at the caps -----

  /** What becomes of a request line, in one piece, and cut between its CR and its LF. */
  function InOnePiece(line: string): (Status, Option<Response>) {
    var (q, _, s) := Feed(FRESH, line + "\r\n");
    (s, q.error)
  }

  function InTwoPieces(line: string): (Status, Option<Response>) {
    var (q, _, s) := Feed(FRESH, line + "\r");
    if s == NeedMore then
      var (u, _, t) := Feed(q, "\n");
      (t, u.error)
    else (s, q.error)
  }

  const TOO_LONG := Response(400, "Bad Request", [Header("Content-Type", "text/plain")], "request line exceeds limit\n", false)

  function Judged(line: string): (Status, Option<Response>) {
    var (q, r) := FinishRequestLine(FRESH, line);
    (if r == Advanced then NeedMore else Error, q.error)
  }

  lemma JudgedIsNotTooLong(line: string)
    ensures Judged(line) != (Error, Some(TOO_LONG))
  {
    var bodies := ["malformed request line\n", "unsupported method\n", "request target must be origin-form\n", "only HTTP/1.1 is supported\n"];
    assert forall i :: 0 <= i < |bodies| ==> |bodies[i]| != |TOO_LONG.body| || bodies[i][0] != TOO_LONG.body[0];
  }

  lemma OnePieceIs(line: string)
    requires Crlf(line) == |line|
    ensures InOnePiece(line) == if |line| > MAX_REQUEST_LINE then (Error, Some(TOO_LONG)) else Judged(line)
  {
    WholeIsParsed(line);
    var (q, r) := FinishRequestLine(FRESH, line);
    if r == Advanced { NoBytesYet(q.(line := "")); }
  }

  lemma TwoPiecesAre(line: string)
    requires Crlf(line) == |line|
    ensures InTwoPieces(line) == if |line| >= MAX_REQUEST_LINE then (Error, Some(TOO_LONG)) else Judged(line)
  {
    if line == "" {
      OneCr(FRESH);
      assert ParseRequestLine(FRESH, "\r") == (FRESH.(line := "" + "\r"), "", NeedMoreData);
      assert line + "\r" == "\r" && "" + "\r" == "\r";
    } else {
      FirstPieceIsParsed(line);
    }
    SecondPieceIsParsed(line);
    var (q, r) := FinishRequestLine(FRESH, line);
    if r == Advanced { NoBytesYet(q.(line := "")); }
  }

  /** For every line without a line end in it, well-formed or not, the cut matters exactly at the cap: a line of MAX_REQUEST_LINE
      bytes is judged on its merits in one piece, and refused as too long in two. */
  lemma CutMattersIffAtTheCap(line: string)
    requires Crlf(line) == |line|
    ensures InOnePiece(line) == InTwoPieces(line) <==> |line| != MAX_REQUEST_LINE
    ensures |line| == MAX_REQUEST_LINE ==> InOnePiece(line) == Judged(line) && InTwoPieces(line) == (Error, Some(TOO_LONG))
  {
    OnePieceIs(line);
    TwoPiecesAre(line);
    JudgedIsNotTooLong(line);
  }

  /** What a piece of a stream comes to. */
  function Outcome(fed: (Parser, string, StepResult)): (StepResult, Option<Response>) {
    (fed.2, fed.0.error)
  }

  /** What becomes of a header line, in one piece, and cut between its CR and its LF. */
  function HeaderInOnePiece(p: Parser, line: string): (StepResult, Option<Response>)
    requires p.phase == Headers
  {
    Outcome(ParseHeaders(p, line + "\r\n"))
  }

  function HeaderInTwoPieces(p: Parser, line: string): (StepResult, Option<Response>)
    requires p.phase == Headers
  {
    LastPiece(ParseHeaders(p, line + "\r"))
  }

  function LastPiece(fed: (Parser, string, StepResult)): (StepResult, Option<Response>)
    requires fed.2 == NeedMoreData ==> fed.0.phase == Headers
  {
    if fed.2 == NeedMoreData then Outcome(ParseHeaders(fed.0, "\n")) else Outcome(fed)
  }

  lemma TooManyIsTooLarge(p: Parser, data: string)
    ensures Outcome(TooManyHeaderBytes(p, data)) == (Failed, Some(TOO_LARGE))
  {
  }

  const TOO_LARGE := Response(431, "Request Header Fields Too Large", [Header("Content-Type", "text/plain")], "headers exceed limit\n", false)

  /** A header line that is refused for what it is, before its size is looked at. */
  predicate IsMalformed(line: string) {
    || '\r' in line || '\n' in line
    || var colon := IndexOf(line, ':');
       colon == |line| || colon == 0 || ' ' in line[..colon] || '\t' in line[..colon]
  }

  /** A line without a line end in it, for which the parser is ready. */
  predicate IsNextLine(p: Parser, line: string) {
    p.phase == Headers && p.line == "" && p.seen <= MAX_HEADER_BYTES && Crlf(line) == |line| && line != ""
  }

  /** What becomes of a line that has been put together. */
  function HeaderJudged(p: Parser, line: string): (StepResult, Option<Response>)
    requires p.phase == Headers
  {
    var (q, r) := ConsumeHeaderLine(p, line);
    (if r == Advanced then NeedMoreData else Failed, q.error)
  }

  predicate FailsWith(outcome: (StepResult, Option<Response>), status: nat) {
    outcome.0 == Failed && outcome.1.Some? && outcome.1.value.status == status
  }

  /** Past the cap, such a line is too large unless it is malformed. */
  lemma JudgedPastTheCap(p: Parser, line: string)
    requires IsNextLine(p, line) && p.seen + |line| + 2 > MAX_HEADER_BYTES
    ensures HeaderJudged(p, line) == (Failed, Some(TOO_LARGE)) <==> !IsMalformed(line)
    ensures IsMalformed(line) ==> FailsWith(HeaderJudged(p, line), 400)
  {
  }

  /** A line that advances leaves the headers open, with nothing of the next line read. */
  lemma NextLineAwaited(p: Parser, line: string)
    requires p.phase == Headers && line != "" && ConsumeHeaderLine(p, line).1 == Advanced
    ensures var q := ConsumeHeaderLine(p, line).0.(line := ""); q.phase == Headers && ParseHeaders(q, "") == (q, "", NeedMoreData)
  {
    assert "" + "" == "";
  }

  lemma OneHeaderPieceIs(p: Parser, line: string)
    requires IsNextLine(p, line)
    ensures HeaderInOnePiece(p, line) == if p.seen + |line| + 2 > MAX_HEADER_BYTES then (Failed, Some(TOO_LARGE)) else HeaderJudged(p, line)
  {
    OneHeaderPieceGoesTo(p, line);
    TooManyIsTooLarge(p, line + "\r\n");
    LineThenNothing(p, line);
  }

  lemma OneHeaderPieceGoesTo(p: Parser, line: string)
    requires IsNextLine(p, line)
    ensures ParseHeaders(p, line + "\r\n") ==
      if p.seen + |line| + 2 > MAX_HEADER_BYTES then TooManyHeaderBytes(p, line + "\r\n")
      else AfterHeaderLine(ConsumeHeaderLine(p, line).0.(line := ""), "", ConsumeHeaderLine(p, line).1)
  {
    NoLineEnd(line, "\r\n");
    var data := line + "\r\n";
    assert "" + data[..|line|] == line && data[|line| + 2..] == "";
  }

  lemma LineThenNothing(p: Parser, line: string)
    requires p.phase == Headers && line != ""
    ensures var (q, r) := ConsumeHeaderLine(p, line); Outcome(AfterHeaderLine(q.(line := ""), "", r)) == HeaderJudged(p, line)
  {
    if ConsumeHeaderLine(p, line).1 == Advanced { NextLineAwaited(p, line); }
  }

  lemma FirstHeaderPieceIs(p: Parser, line: string)
    requires IsNextLine(p, line)
    ensures ParseHeaders(p, line + "\r") ==
      if p.seen + |line| + 1 > MAX_HEADER_BYTES then TooManyHeaderBytes(p, line + "\r") else (p.(line := line + "\r"), "", NeedMoreData)
  {
    NoLineEnd(line, "\r");
    assert "" + (line + "\r") == line + "\r";
  }

  lemma SecondHeaderPieceIs(p: Parser, line: string)
    requires IsNextLine(p, line)
    ensures Outcome(ParseHeaders(p.(line := line + "\r"), "\n")) == HeaderJudged(p, line)
  {
    var q := p.(line := line + "\r");
    assert q.line[..|q.line| - 1] == line && "\n"[1..] == "";
    HeaderLineIsNotRead(p, line, line + "\r");
    LineThenNothing(p, line);
  }

  /** Consuming a line does not look at the line buffer. */
  lemma HeaderLineIsNotRead(p: Parser, line: string, other: string)
    requires p.phase == Headers
    ensures ConsumeHeaderLine(p.(line := other), line) == (ConsumeHeaderLine(p, line).0.(line := other), ConsumeHeaderLine(p, line).1)
  {
  }

  lemma TwoHeaderPiecesAre(p: Parser, line: string)
    requires IsNextLine(p, line)
    ensures HeaderInTwoPieces(p, line) == if p.seen + |line| + 1 > MAX_HEADER_BYTES then (Failed, Some(TOO_LARGE)) else HeaderJudged(p, line)
  {
    FirstHeaderPieceIs(p, line);
    SecondHeaderPieceIs(p, line);
    TooManyIsTooLarge(p, line + "\r");
  }

  /** For every header line without a line end in it, the cut matters exactly if the line takes the header bytes
      one past the cap and is malformed: too large in one piece, malformed in two. */
  lemma HeaderCutMattersIff(p: Parser, line: string)
    requires IsNextLine(p, line)
    ensures HeaderInOnePiece(p, line) != HeaderInTwoPieces(p, line) <==> p.seen + |line| + 2 == MAX_HEADER_BYTES + 1 && IsMalformed(line)
    ensures HeaderInOnePiece(p, line) != HeaderInTwoPieces(p, line) ==>
              HeaderInOnePiece(p, line) == (Failed, Some(TOO_LARGE)) && FailsWith(HeaderInTwoPieces(p, line), 400)
  {
    OneHeaderPieceIs(p, line);
    TwoHeaderPiecesAre(p, line);
    if p.seen + |line| + 2 > MAX_HEADER_BYTES { JudgedPastTheCap(p, line); }
  }

  // ----- the line buffer of a whole session -----

  function Excess(p: Parser): nat {
    if p.phase == RequestLine && |p.line| > MAX_REQUEST_LINE then |p.line| - MAX_REQUEST_LINE else 0
  }

  /** The last n chunks are "\r". */
  predicate LastAreCrs(chunks: seq<string>, n: nat) {
    n <= |chunks| && forall i :: |chunks| - n <= i < |chunks| ==> chunks[i] == "\r"
  }

  /** A chunk leaves more than the cap in the buffer only if it is one more "\r". */
  lemma ChunkExcess(p: Parser, data: string)
    requires Open(p) && RunChunk(p, data).error == None && Excess(RunChunk(p, data).p) > 0
    ensures data == "\r" && p.phase == RequestLine && RunChunk(p, data).p.line == p.line + "\r"
  {
    var (q, rest, s) := Feed(p, data);
    if s == Complete {
      RestLeavesNone(rest);
    } else if p.phase == RequestLine && ParseRequestLine(p, data).2 == NeedMoreData {
      RequestBuffer(p, data);
    }
  }

  /** From a fresh parser one chunk cannot do it. */
  lemma {:induction false} RestLeavesNone(data: string)
    requires RunChunk(FRESH, data).error == None
    ensures Excess(RunChunk(FRESH, data).p) == 0
    decreases |data|
  {
    var (q, rest, s) := Feed(FRESH, data);
    if s == Complete {
      RestLeavesNone(rest);
    } else if ParseRequestLine(FRESH, data).2 == NeedMoreData {
      RequestBuffer(FRESH, data);
    }
  }

  lemma {:induction false} ExcessAfter(p: Parser, chunks: seq<string>)
    requires Open(p) && RunChunks(p, chunks).error == None
    ensures var n := Excess(RunChunks(p, chunks).p);
            LastAreCrs(chunks, n) || (n == Excess(p) + |chunks| && LastAreCrs(chunks, |chunks|))
    decreases |chunks|
  {
    if chunks != [] {
      var q := RunChunk(p, chunks[0]).p;
      ExcessAfter(q, chunks[1..]);
      if Excess(q) > 0 { ChunkExcess(p, chunks[0]); }
    }
  }

  /** In every session the buffer of an unfinished request line passes the cap by no more than the chunks "\r",
      each alone, that came last. */
  lemma SessionBuffer(chunks: seq<string>)
    requires RunChunks(FRESH, chunks).error == None
    ensures LastAreCrs(chunks, Excess(RunChunks(FRESH, chunks).p))
  {
    ExcessAfter(FRESH, chunks);
  }
}
