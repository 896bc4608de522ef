/** What the HTTP/1.1 parser accepts, line by line, and what every request that it completes is like, however
    the stream is cut. (projects/05-arcserve/src/protocol/http_parser.cpp; RFC 9112, sections 3, 5 and 6.3) */
module HttpGrammar {
  import opened HttpParser
  import opened HttpSession

  // ----- request lines -----

  /** A method, a space, a target that starts with '/' and has no space, and " HTTP/1.1". */
  predicate IsRequestLine(line: string, verb: Method, target: string) {
    && line == (if verb == Get then "GET" else "POST") + " " + target + " HTTP/1.1"
    && target != "" && target[0] == '/' && ' ' !in target
  }

  lemma {:induction false} FirstAt(s: string, c: char, i: nat)
    requires i < |s| && s[i] == c && c !in s[..i]
    ensures IndexOf(s, c) == i
  {
    assert forall j :: 0 <= j < i ==> s[j] in s[..i];
    assert forall j :: 0 <= j < IndexOf(s, c) ==> s[j] in s[..IndexOf(s, c)];
  }

  /** Such a line is accepted, and read as it should be. */
  lemma GoodRequestLine(p: Parser, line: string, verb: Method, target: string)
    requires p.phase == RequestLine && IsRequestLine(line, verb, target)
    ensures var (q, r) := FinishRequestLine(p, line);
            r == Advanced && q == p.(request := p.request.(verb := verb, target := target, version := "HTTP/1.1"), phase := Headers, seen := 0)
  {
    var word := if verb == Get then "GET" else "POST";
    var rest := target + " HTTP/1.1";
    assert line == word + " " + rest;
    assert line[..|word|] == word && line[|word|] == ' ' && line[|word| + 1..] == rest;
    FirstAt(line, ' ', |word|);
    assert rest[..|target|] == target && rest[|target|] == ' ' && rest[|target| + 1..] == "HTTP/1.1";
    FirstAt(rest, ' ', |target|);
  }

  lemma CutAt(s: string, i: nat)
    requires i < |s| && s[i] == ' '
    ensures s == s[..i] + " " + s[i + 1..]
  {
    assert s == s[..i] + [s[i]] + s[i + 1..];
  }

  lemma Rejoined(word: string, target: string)
    ensures word + " " + (target + " " + "HTTP/1.1") == word + " " + target + " HTTP/1.1"
  {
    assert " " + "HTTP/1.1" == " HTTP/1.1";
    assert target + " " + "HTTP/1.1" == target + " HTTP/1.1";
  }

  /** A line that is accepted is such a line. */
  lemma AcceptedRequestLine(p: Parser, line: string)
    requires p.phase == RequestLine && FinishRequestLine(p, line).1 == Advanced
    ensures var q := FinishRequestLine(p, line).0.request; IsRequestLine(line, q.verb, q.target) && q.version == "HTTP/1.1"
  {
    var i := IndexOf(line, ' ');
    CutAt(line, i);
    var rest := line[i + 1..];
    var j := IndexOf(rest, ' ');
    CutAt(rest, j);
    Rejoined(line[..i], rest[..j]);
  }

  /** finish_request_line accepts exactly the request lines of the grammar, and takes them apart. */
  lemma RequestLineIsAcceptedIff(p: Parser, line: string)
    requires p.phase == RequestLine
    ensures FinishRequestLine(p, line).1 == Advanced <==> exists verb, target {:trigger IsRequestLine(line, verb, target)} :: IsRequestLine(line, verb, target)
    ensures forall verb, target {:trigger IsRequestLine(line, verb, target)} :: IsRequestLine(line, verb, target) ==>
              FinishRequestLine(p, line).0.request == p.request.(verb := verb, target := target, version := "HTTP/1.1")
  {
    if FinishRequestLine(p, line).1 == Advanced { AcceptedRequestLine(p, line); }
    forall verb, target | IsRequestLine(line, verb, target)
      ensures FinishRequestLine(p, line).1 == Advanced && FinishRequestLine(p, line).0.request == p.request.(verb := verb, target := target, version := "HTTP/1.1")
    {
      GoodRequestLine(p, line, verb, target);
    }
  }

  // ----- header lines -----

  predicate AllBlank(s: string) {
    forall i :: 0 <= i < |s| ==> Blank(s[i])
  }

  /** `v` with blanks around it is `s`, and v does not begin or end with one. */
  predicate Trims(s: string, before: string, v: string, after: string) {
    && s == before + v + after && AllBlank(before) && AllBlank(after)
    && (v != "" ==> !Blank(v[0]) && !Blank(v[|v| - 1])) && (v == "" ==> after == "")
  }

  lemma {:induction false} TrimLeftIs(s: string, before: string, v: string)
    requires s == before + v && AllBlank(before) && (v != "" ==> !Blank(v[0]))
    ensures TrimLeft(s) == v
    decreases |before|
  {
    if before != "" {
      assert s[0] == before[0] && s[1..] == before[1..] + v;
      TrimLeftIs(s[1..], before[1..], v);
    } else {
      assert s == v;
    }
  }

  lemma {:induction false} TrimRightIs(s: string, v: string, after: string)
    requires s == v + after && AllBlank(after) && (v != "" ==> !Blank(v[|v| - 1]))
    ensures TrimRight(s) == v
    decreases |after|
  {
    if after != "" {
      var n := |after| - 1;
      assert s[|s| - 1] == after[n] && s[..|s| - 1] == v + after[..n];
      TrimRightIs(s[..|s| - 1], v, after[..n]);
    } else {
      assert s == v;
    }
  }

  lemma {:induction false} TrimLeftGives(s: string) returns (before: string)
    ensures s == before + TrimLeft(s) && AllBlank(before) && (TrimLeft(s) != "" ==> !Blank(TrimLeft(s)[0]))
  {
    before := "";
    if s != "" && Blank(s[0]) {
      before := TrimLeftGives(s[1..]);
      before := [s[0]] + before;
    }
  }

  lemma {:induction false} TrimRightGives(s: string) returns (after: string)
    ensures s == TrimRight(s) + after && AllBlank(after) && (TrimRight(s) != "" ==> !Blank(TrimRight(s)[|TrimRight(s)| - 1]))
    decreases |s|
  {
    after := "";
    if s != "" && Blank(s[|s| - 1]) {
      after := TrimRightGives(s[..|s| - 1]);
      after := after + [s[|s| - 1]];
    }
  }

  /** The value of a header is what is left of the rest of its line without the blanks around it. */
  lemma Trimmed(s: string) returns (before: string, after: string)
    ensures Trims(s, before, TrimRight(TrimLeft(s)), after)
  {
    before := TrimLeftGives(s);
    var t := TrimLeft(s);
    after := TrimRightGives(t);
    var v := TrimRight(t);
    if v == "" {
      assert t == after;
    } else {
      assert v[0] == t[0];
    }
  }

  /** A name, a colon, and a value between blanks; no CR or LF, and no blank or colon in the name. */
  predicate IsHeaderLine(line: string, name: string, before: string, value: string, after: string) {
    && line == name + ":" + before + value + after && '\r' !in line && '\n' !in line
    && name != "" && ':' !in name && ' ' !in name && '\t' !in name
    && Trims(before + value + after, before, value, after)
  }

  /** There is room for one more header of that size and name. */
  predicate RoomFor(p: Parser, line: string, name: string) {
    && p.seen + |line| + 2 <= MAX_HEADER_BYTES && |p.request.headers| < MAX_HEADER_COUNT
    && !(SameIgnoringCase(name, "Content-Length") && FindHeader(p.request.headers, "Content-Length").Some?)
  }

  lemma TrimIs(before: string, value: string, after: string)
    requires Trims(before + value + after, before, value, after)
    ensures TrimRight(TrimLeft(before + value + after)) == value
  {
    assert before + value + after == before + (value + after);
    if value == "" { assert value + after == ""; } else { assert (value + after)[0] == value[0]; }
    TrimLeftIs(before + value + after, before, value + after);
    TrimRightIs(value + after, value, after);
  }

  lemma GoodHeaderLine(p: Parser, line: string, name: string, before: string, value: string, after: string)
    requires p.phase == Headers && IsHeaderLine(line, name, before, value, after)
    ensures ConsumeHeaderLine(p, line).1 == Advanced <==> RoomFor(p, line, name)
    ensures RoomFor(p, line, name) ==>
              ConsumeHeaderLine(p, line).0 == p.(seen := p.seen + |line| + 2, request := p.request.(headers := p.request.headers + [Header(name, value)]))
  {
    var rest := before + value + after;
    assert line == name + ":" + rest;
    assert line[..|name|] == name && line[|name|] == ':' && line[|name| + 1..] == rest;
    FirstAt(line, ':', |name|);
    TrimIs(before, value, after);
  }

  lemma AcceptedHeaderLine(p: Parser, line: string) returns (before: string, after: string)
    requires p.phase == Headers && line != "" && ConsumeHeaderLine(p, line).1 == Advanced
    ensures var hs := ConsumeHeaderLine(p, line).0.request.headers;
            hs != [] && IsHeaderLine(line, hs[|hs| - 1].name, before, hs[|hs| - 1].value, after)
  {
    var colon := IndexOf(line, ':');
    before, after := Trimmed(line[colon + 1..]);
    var name, value := line[..colon], TrimRight(TrimLeft(line[colon + 1..]));
    assert line == name + ":" + line[colon + 1..];
    assert line[colon + 1..] == before + value + after;
    assert name + ":" + (before + value + after) == name + ":" + before + value + after;
  }

  /** consume_header_line accepts exactly the header lines of the grammar for which there is room. */
  lemma HeaderLineIsAcceptedIff(p: Parser, line: string)
    requires p.phase == Headers && line != ""
    ensures ConsumeHeaderLine(p, line).1 == Advanced <==>
              exists name, before, value, after {:trigger IsHeaderLine(line, name, before, value, after)} ::
                IsHeaderLine(line, name, before, value, after) && RoomFor(p, line, name)
  {
    if ConsumeHeaderLine(p, line).1 == Advanced {
      var before, after := AcceptedHeaderLine(p, line);
      var hs := ConsumeHeaderLine(p, line).0.request.headers;
      GoodHeaderLine(p, line, hs[|hs| - 1].name, before, hs[|hs| - 1].value, after);
    }
    forall name, before, value, after | IsHeaderLine(line, name, before, value, after) && RoomFor(p, line, name)
      ensures ConsumeHeaderLine(p, line).1 == Advanced
    {
      GoodHeaderLine(p, line, name, before, value, after);
    }
  }

  /** The end of the headers is accepted exactly if a Content-Length, where there is one, is a decimal
      number of at most MAX_BODY, and a POST has one; the body's length is then known. */
  lemma HeadersMayEndIff(p: Parser)
    ensures var (q, r) := FinishHeaders(p);
            var h := FindHeader(p.request.headers, "Content-Length");
            && (r == Advanced <==>
                  if h.Some? then h.value != "" && Digits(h.value) && Decimal(h.value) <= MAX_BODY else p.request.verb == Get)
            && (r == Advanced ==> q.length == Some(if h.Some? then Decimal(h.value) else 0) && q.phase == (if q.length == Some(0) then Done else Body))
  {
  }

  // ----- every request of every session -----

  predicate Clean(h: Header) {
    && h.name != "" && '\r' !in h.name && '\n' !in h.name && ':' !in h.name && ' ' !in h.name && '\t' !in h.name
    && '\r' !in h.value && '\n' !in h.value
  }

  predicate IsLength(h: Header) {
    SameIgnoringCase(h.name, "Content-Length")
  }

  /** The least number of bytes the headers took on the wire. */
  function HeaderBytes(hs: seq<Header>): nat {
    if hs == [] then 0 else HeaderBytes(hs[..|hs| - 1]) + |hs[|hs| - 1].name| + 1 + |hs[|hs| - 1].value| + 2
  }

  predicate CleanHeaders(hs: seq<Header>) {
    && |hs| <= MAX_HEADER_COUNT && (forall i :: 0 <= i < |hs| ==> Clean(hs[i]))
    && (forall i, j :: 0 <= i < j < |hs| ==> !(IsLength(hs[i]) && IsLength(hs[j])))
  }

  /** The size of the request line. */
  function StartBytes(q: Request): nat {
    (if q.verb == Get then 3 else 4) + 1 + |q.target| + 1 + |q.version|
  }

  predicate CleanStart(q: Request) {
    q.target != "" && q.target[0] == '/' && ' ' !in q.target && q.version == "HTTP/1.1" && StartBytes(q) <= MAX_REQUEST_LINE
  }

  /** What is buffered of a request line: all of it past the cap is CRs. */
  predicate Capped(line: string) {
    forall i :: MAX_REQUEST_LINE <= i < |line| ==> line[i] == '\r'
  }

  /** A completed request: a proper start line of at most MAX_REQUEST_LINE bytes; at most MAX_HEADER_COUNT headers of at most
      MAX_HEADER_BYTES bytes, without CR or LF, and at most one Content-Length; a body of exactly that
      length, or none without it, and then no POST; and never more than MAX_BODY bytes. */
  predicate GoodRequest(q: Request) {
    && CleanStart(q) && CleanHeaders(q.headers) && HeaderBytes(q.headers) <= MAX_HEADER_BYTES
    && |q.body| <= MAX_BODY
    && match FindHeader(q.headers, "Content-Length")
       case Some(text) => Digits(text) && Decimal(text) == |q.body|
       case None => q.verb == Get && q.body == ""
  }

  /** What a parser in the middle of a request keeps. */
  predicate Proper(p: Parser) {
    && (p.phase == RequestLine ==> p.request.headers == [] && p.seen == 0 && Capped(p.line))
    && (p.phase != RequestLine ==> CleanStart(p.request))
    && CleanHeaders(p.request.headers) && HeaderBytes(p.request.headers) <= p.seen <= MAX_HEADER_BYTES
    && (p.phase == Body || p.phase == Done ==> Measured(p))
  }

  /** The length of the body is known, and not exceeded. */
  predicate Measured(p: Parser) {
    && p.length.Some? && |p.request.body| <= p.length.value <= MAX_BODY && (p.phase == Done ==> |p.request.body| == p.length.value)
    && match FindHeader(p.request.headers, "Content-Length")
       case Some(text) => Digits(text) && Decimal(text) == p.length.value
       case None => p.request.verb == Get && p.length.value == 0
  }

  lemma DoneIsGood(p: Parser)
    requires Proper(p) && p.phase == Done
    ensures GoodRequest(p.request)
  {
  }

  lemma {:induction false} NoLengthFound(hs: seq<Header>, i: nat)
    requires i < |hs| && IsLength(hs[i])
    ensures FindHeader(hs, "Content-Length").Some?
  {
    if !IsLength(hs[0]) { NoLengthFound(hs[1..], i - 1); }
  }

  /** One more accepted header keeps the headers clean. */
  lemma OneMoreHeader(p: Parser, line: string)
    requires p.phase == Headers && Proper(p) && line != "" && ConsumeHeaderLine(p, line).1 == Advanced
    ensures Proper(ConsumeHeaderLine(p, line).0) && ConsumeHeaderLine(p, line).0.phase == Headers
  {
    var before, after := AcceptedHeaderLine(p, line);
    var q := ConsumeHeaderLine(p, line).0;
    var hs, h := p.request.headers, q.request.headers[|q.request.headers| - 1];
    GoodHeaderLine(p, line, h.name, before, h.value, after);
    assert q.request.headers == hs + [h] && (hs + [h])[..|hs|] == hs;
    InLine(line, h.name, before, h.value, after);
    forall i | 0 <= i < |hs| ensures !(IsLength(hs[i]) && IsLength(h)) {
      if IsLength(hs[i]) { NoLengthFound(hs, i); }
    }
  }

  lemma InLine(line: string, name: string, before: string, value: string, after: string)
    requires IsHeaderLine(line, name, before, value, after)
    ensures Clean(Header(name, value)) && |name| + 1 + |value| <= |line|
  {
    forall c | c in name ensures c in line { }
    forall c | c in value ensures c in line { }
  }

  lemma HeadersEndProper(p: Parser)
    requires p.phase == Headers && Proper(p) && FinishHeaders(p).1 == Advanced
    ensures Proper(FinishHeaders(p).0)
  {
    HeadersMayEndIff(p);
  }

  lemma LineProper(p: Parser, line: string)
    requires p.phase == Headers && Proper(p) && ConsumeHeaderLine(p, line).1 == Advanced
    ensures Proper(ConsumeHeaderLine(p, line).0)
  {
    if line == "" { HeadersEndProper(p); } else { OneMoreHeader(p, line); }
  }

  /** A line that goes on past the cap with CRs is no request line. */
  lemma CappedIsShort(line: string, verb: Method, target: string)
    requires IsRequestLine(line, verb, target) && Capped(line)
    ensures |line| <= MAX_REQUEST_LINE
  {
    assert line[|line| - 1] == " HTTP/1.1"[8];
  }

  lemma StartProper(p: Parser, line: string)
    requires p.phase == RequestLine && Proper(p) && Capped(line) && FinishRequestLine(p, line).1 == Advanced
    ensures Proper(FinishRequestLine(p, line).0)
  {
    AcceptedRequestLine(p, line);
    var q := FinishRequestLine(p, line).0.request;
    GoodRequestLine(p, line, q.verb, q.target);
    CappedIsShort(line, q.verb, q.target);
  }

  /** Where a line ends, the rest of its chunk aside. */
  lemma StartThenProper(p: Parser, line: string)
    requires p.phase == RequestLine && Proper(p) && Capped(line)
    ensures var (q, r) := FinishRequestLine(p, line); r != Failed ==> Proper(q.(line := ""))
  {
    if FinishRequestLine(p, line).1 == Advanced { StartProper(p, line); }
  }

  /** The line that a chunk finishes, if it does. */
  function FinishedLine(p: Parser, data: string): Option<string> {
    if SplitCrlf(p.line, data) then Some(p.line[..|p.line| - 1])
    else if Crlf(data) < |data| then Some(p.line + data[..Crlf(data)])
    else None
  }

  lemma ChunkGoesTo(p: Parser, data: string)
    requires p.phase == RequestLine && ParseRequestLine(p, data).2 != Failed
    ensures match FinishedLine(p, data)
            case Some(line) => var (q, r) := FinishRequestLine(p, line); r != Failed && ParseRequestLine(p, data).0 == q.(line := "")
            case None => (data == "\r" || |p.line| + |data| <= MAX_REQUEST_LINE) && ParseRequestLine(p, data).0 == p.(line := p.line + data)
  {
  }

  lemma FinishedIsCapped(p: Parser, data: string)
    requires p.phase == RequestLine && Capped(p.line) && ParseRequestLine(p, data).2 != Failed && FinishedLine(p, data).Some?
    ensures Capped(FinishedLine(p, data).value)
  {
  }

  /** Whatever a chunk is, the parser stays proper, unless it reports an error. */
  lemma RequestLineProper(p: Parser, data: string)
    requires p.phase == RequestLine && Proper(p) && ParseRequestLine(p, data).2 != Failed
    ensures Proper(ParseRequestLine(p, data).0)
  {
    ChunkGoesTo(p, data);
    match FinishedLine(p, data)
    case Some(line) =>
      FinishedIsCapped(p, data);
      StartThenProper(p, line);
    case None => PendingProper(p, data);
  }

  /** An unfinished line is one CR longer, or within the cap. */
  lemma PendingProper(p: Parser, data: string)
    requires p.phase == RequestLine && Proper(p) && (data == "\r" || |p.line| + |data| <= MAX_REQUEST_LINE)
    ensures Proper(p.(line := p.line + data))
  {
    assert Capped(p.line + data);
  }

  lemma {:induction false} HeadersProper(p: Parser, data: string)
    requires p.phase == Headers && Proper(p) && ParseHeaders(p, data).2 != Failed
    ensures Proper(ParseHeaders(p, data).0)
    decreases |data|, 0
  {
    if SplitCrlf(p.line, data) {
      LineThenHeaders(p, p.line[..|p.line| - 1], data[1..], data);
    } else if Crlf(data) < |data| {
      LineThenHeaders(p, p.line + data[..Crlf(data)], data[Crlf(data) + 2..], data);
    }
  }

  lemma {:induction false} LineThenHeaders(p: Parser, line: string, rest: string, data: string)
    requires p.phase == Headers && Proper(p) && |rest| < |data|
    requires var (q, r) := ConsumeHeaderLine(p, line); AfterHeaderLine(q.(line := ""), rest, r).2 != Failed
    ensures var (q, r) := ConsumeHeaderLine(p, line); Proper(AfterHeaderLine(q.(line := ""), rest, r).0)
    decreases |rest|, 1
  {
    var (q, r) := ConsumeHeaderLine(p, line);
    if r == Advanced {
      LineProper(p, line);
      if q.phase == Headers { HeadersProper(q.(line := ""), rest); }
    }
  }

  lemma BodyProper(p: Parser, data: string)
    requires p.phase == Body && Ok(p) && Proper(p)
    ensures Proper(ParseBody(p, data).0)
  {
  }

  lemma FeedHeadersProper(p: Parser, data: string)
    requires p.phase == Headers && Proper(p) && FeedHeaders(p, data).2 != Error
    ensures Proper(FeedHeaders(p, data).0)
  {
    HeadersProper(p, data);
    var (q, rest, r) := ParseHeaders(p, data);
    if r == Advanced && q.phase == Body { BodyProper(q, rest); }
  }

  lemma FeedProper(p: Parser, data: string)
    requires Ok(p) && Proper(p) && Feed(p, data).2 != Error
    ensures Proper(Feed(p, data).0)
  {
    match p.phase
    case Done =>
    case Body => BodyProper(p, data);
    case Headers => FeedHeadersProper(p, data);
    case RequestLine =>
      RequestLineProper(p, data);
      var (q, rest, r) := ParseRequestLine(p, data);
      if r == Advanced { FeedHeadersProper(q, rest); }
  }

  predicate AllGood(rs: seq<Request>) {
    forall i :: 0 <= i < |rs| ==> GoodRequest(rs[i])
  }

  lemma {:induction false} ChunkGood(p: Parser, data: string)
    requires Open(p) && Proper(p)
    ensures AllGood(RunChunk(p, data).requests) && (RunChunk(p, data).error == None ==> Proper(RunChunk(p, data).p))
    decreases |data|
  {
    var (q, rest, s) := Feed(p, data);
    if s != Error { FeedProper(p, data); }
    if s == Complete {
      if q.phase == Done { DoneIsGood(q); }
      ChunkGood(FRESH, rest);
    }
  }

  lemma {:induction false} ChunksGood(p: Parser, chunks: seq<string>)
    requires Open(p) && Proper(p)
    ensures AllGood(RunChunks(p, chunks).requests)
    decreases |chunks|
  {
    if chunks != [] {
      ChunkGood(p, chunks[0]);
      var t := RunChunk(p, chunks[0]);
      if t.error == None { ChunksGood(t.p, chunks[1..]); }
    }
  }

  /** Every request that any session completes, whatever the bytes, however they are cut, and at the caps
      too, is a good one. */
  lemma EveryRequestIsGood(chunks: seq<string>)
    ensures AllGood(RunChunks(FRESH, chunks).requests)
  {
    ChunksGood(FRESH, chunks);
  }

  /** A target has no space, but it may have a bare LF: only "\r\n" ends a line. */
  lemma TargetMayHoldLineFeed()
    ensures var line := "GET /\n HTTP/1.1"; FinishRequestLine(FRESH, line).1 == Advanced && FinishRequestLine(FRESH, line).0.request.target == "/\n"
  {
    assert IsRequestLine("GET /\n HTTP/1.1", Get, "/\n");
    GoodRequestLine(FRESH, "GET /\n HTTP/1.1", Get, "/\n");
  }
}
