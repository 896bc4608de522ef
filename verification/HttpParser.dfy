/** ArcServe's incremental HTTP/1.1 request parser as a function of its state and the bytes fed to it.
    (projects/05-arcserve/src/protocol/http_parser.cpp, http_message.cpp) */
module HttpParser {

  datatype Option<T> = None | Some(value: T)

  const MAX_REQUEST_LINE := 8192
  const MAX_HEADER_BYTES := 8192
  const MAX_HEADER_COUNT := 100
  const MAX_BODY := 1048576

  datatype Method = Get | Post
  datatype Header = Header(name: string, value: string)
  datatype Request = Request(verb: Method, target: string, version: string, headers: seq<Header>, body: string)
  datatype Response = Response(status: nat, reason: string, headers: seq<Header>, body: string, keepAlive: bool)

  datatype Phase = RequestLine | Headers | Body | Done
  datatype StepResult = NeedMoreData | Advanced | Failed
  datatype Status = NeedMore | Complete | Error

  /** `line` is the unfinished line, `seen` the header bytes so far. */
  datatype Parser = Parser(phase: Phase, line: string, seen: nat, length: Option<nat>, request: Request, error: Option<Response>)

  const NO_REQUEST := Request(Get, "", "", [], "")
  const FRESH := Parser(RequestLine, "", 0, None, NO_REQUEST, None)

  /** While the body is being read, some of it is missing. */
  predicate Ok(p: Parser) {
    p.phase == Body ==> p.length.Some? && |p.request.body| < p.length.value
  }

  /** After an error there is a response to send. */
  predicate Refused(p: Parser) {
    p.phase == Done && p.error.Some?
  }

  // ----- strings -----

  /** Where `c` first occurs, or the length of the string. */
  function IndexOf(s: string, c: char): (i: nat)
    ensures i <= |s| && c !in s[..i] && (i < |s| ==> s[i] == c)
  {
    if s == "" || s[0] == c then 0
    else
      var i := IndexOf(s[1..], c);
      assert s[..1 + i] == [s[0]] + s[1..][..i];
      1 + i
  }

  predicate CrlfAt(s: string, i: nat) {
    i + 1 < |s| && s[i] == '\r' && s[i + 1] == '\n'
  }

  /** Where "\r\n" first occurs, or the length of the string. */
  function Crlf(s: string): (i: nat)
    ensures i <= |s| && (i < |s| ==> CrlfAt(s, i))
    ensures forall j: nat {:trigger CrlfAt(s, j)} :: j < i ==> !CrlfAt(s, j)
  {
    if |s| < 2 then |s|
    else if s[0] == '\r' && s[1] == '\n' then 0
    else
      var i := Crlf(s[1..]);
      assert forall j: nat {:trigger CrlfAt(s, j)} :: 0 < j ==> (CrlfAt(s, j) <==> CrlfAt(s[1..], j - 1));
      assert i < |s[1..]| ==> CrlfAt(s, i + 1);
      if i == |s[1..]| then |s| else 1 + i
  }

  function Lower(c: char): char {
    if 'A' <= c <= 'Z' then c + 32 as char else c
  }

  predicate SameIgnoringCase(a: string, b: string) {
    |a| == |b| && forall i :: 0 <= i < |a| ==> Lower(a[i]) == Lower(b[i])
  }

  function FindHeader(headers: seq<Header>, name: string): Option<string> {
    if headers == [] then None
    else if SameIgnoringCase(headers[0].name, name) then Some(headers[0].value)
    else FindHeader(headers[1..], name)
  }

  predicate Blank(c: char) {
    c == ' ' || c == '\t'
  }

  function TrimLeft(s: string): string {
    if s != "" && Blank(s[0]) then TrimLeft(s[1..]) else s
  }

  function TrimRight(s: string): string {
    if s != "" && Blank(s[|s| - 1]) then TrimRight(s[..|s| - 1]) else s
  }

  predicate Digits(s: string) {
    forall i :: 0 <= i < |s| ==> '0' <= s[i] <= '9'
  }

  function Decimal(s: string): nat
    requires Digits(s)
  {
    if s == "" then 0 else 10 * Decimal(s[..|s| - 1]) + (s[|s| - 1] as nat - '0' as nat)
  }

  /** What std::from_chars makes of the whole string as a 64-bit unsigned number. */
  function ParseSize(s: string): Option<nat> {
    if s != "" && Digits(s) && Decimal(s) < 0x1_0000_0000_0000_0000 then Some(Decimal(s)) else None
  }

  // ----- lines -----

  function Fail(p: Parser, status: nat, reason: string, body: string): (Parser, StepResult) {
    (p.(error := Some(Response(status, reason, [Header("Content-Type", "text/plain")], body, false)), phase := Done), Failed)
  }

  function Malformed(p: Parser): (Parser, StepResult) {
    Fail(p, 400, "Bad Request", "malformed request line\n")
  }

  function FinishRequestLine(p: Parser, line: string): (r: (Parser, StepResult))
    requires p.phase == RequestLine
    ensures if r.1 == Failed then Refused(r.0) else r.1 == Advanced && r.0.phase == Headers
  {
    var space := IndexOf(line, ' ');
    if space == |line| then Malformed(p) else
    var rest := line[space + 1..];
    var second := IndexOf(rest, ' ');
    if second == |rest| then Malformed(p) else
    var target, version := rest[..second], rest[second + 1..];
    if target == "" || version == "" then Malformed(p) else
    if line[..space] != "GET" && line[..space] != "POST" then Fail(p, 501, "Not Implemented", "unsupported method\n") else
    var q := p.(request := p.request.(verb := if line[..space] == "GET" then Get else Post));
    if target[0] != '/' then Fail(q, 400, "Bad Request", "request target must be origin-form\n") else
    var r := q.(request := q.request.(target := target));
    if version != "HTTP/1.1" then Fail(r, 505, "HTTP Version Not Supported", "only HTTP/1.1 is supported\n") else
    (r.(request := r.request.(version := version), phase := Headers, seen := 0), Advanced)
  }

  function FinishHeaders(p: Parser): (r: (Parser, StepResult))
    ensures r.1 != NeedMoreData && (r.1 == Failed ==> Refused(r.0))
    ensures r.1 == Advanced ==> r.0.phase == Done || (r.0.phase == Body && Ok(r.0))
  {
    match FindHeader(p.request.headers, "Content-Length")
    case Some(text) =>
      (match ParseSize(text)
       case None => Fail(p, 400, "Bad Request", "invalid Content-Length\n")
       case Some(n) =>
         if n > MAX_BODY then Fail(p, 413, "Payload Too Large", "body exceeds limit\n") else BeginBody(p, n))
    case None =>
      if p.request.verb == Post then Fail(p, 411, "Length Required", "POST requires Content-Length\n") else BeginBody(p, 0)
  }

  function BeginBody(p: Parser, n: nat): (Parser, StepResult) {
    (p.(length := Some(n), request := p.request.(body := ""), phase := if n == 0 then Done else Body), Advanced)
  }

  function ConsumeHeaderLine(p: Parser, line: string): (r: (Parser, StepResult))
    requires p.phase == Headers
    ensures r.1 != NeedMoreData && (r.1 == Failed ==> Refused(r.0))
    ensures r.1 == Advanced ==> r.0.phase == Headers || r.0.phase == Done || (r.0.phase == Body && Ok(r.0))
  {
    if line == "" then FinishHeaders(p) else
    if '\r' in line || '\n' in line then Fail(p, 400, "Bad Request", "malformed header line\n") else
    var colon := IndexOf(line, ':');
    if colon == |line| || colon == 0 then Fail(p, 400, "Bad Request", "malformed header line\n") else
    var name, value := line[..colon], TrimRight(TrimLeft(line[colon + 1..]));
    if ' ' in name || '\t' in name then Fail(p, 400, "Bad Request", "malformed header name\n") else
    if p.seen + |line| + 2 > MAX_HEADER_BYTES then Fail(p, 431, "Request Header Fields Too Large", "headers exceed limit\n") else
    var q := p.(seen := p.seen + |line| + 2);
    if SameIgnoringCase(name, "Content-Length") && FindHeader(q.request.headers, "Content-Length").Some?
      then Fail(q, 400, "Bad Request", "duplicate Content-Length header\n") else
    if |q.request.headers| >= MAX_HEADER_COUNT then Fail(q, 431, "Request Header Fields Too Large", "too many headers\n") else
    (q.(request := q.request.(headers := q.request.headers + [Header(name, value)])), Advanced)
  }

  // ----- chunks: what the parser does -----

  predicate EndsInCr(s: string) {
    s != "" && s[|s| - 1] == '\r'
  }

  /** The terminator is split: its '\r' ended the last chunk, its '\n' starts this one. */
  predicate SplitCrlf(line: string, data: string) {
    EndsInCr(line) && data != "" && data[0] == '\n'
  }

  function ParseRequestLine(p: Parser, data: string): (r: (Parser, string, StepResult))
    requires p.phase == RequestLine
    ensures r.2 == Advanced ==> r.0.phase == Headers
    ensures |r.1| <= |data| && (r.2 == Advanced ==> |r.1| < |data|)
    ensures (r.2 == NeedMoreData ==> r.0.phase == RequestLine) && (r.2 == Failed ==> Refused(r.0))
  {
    if SplitCrlf(p.line, data) then
      var (q, r) := FinishRequestLine(p, p.line[..|p.line| - 1]);
      (q.(line := ""), data[1..], r)
    else
      var crlf := Crlf(data);
      if crlf < |data| then
        if |p.line| + crlf > MAX_REQUEST_LINE then
          var (q, r) := Fail(p, 400, "Bad Request", "request line exceeds limit\n");
          (q, data, r)
        else
          var (q, r) := FinishRequestLine(p, p.line + data[..crlf]);
          (q.(line := ""), data[crlf + 2..], r)
      else if data != "\r" && |p.line| + |data| > MAX_REQUEST_LINE then
        var (q, r) := Fail(p, 400, "Bad Request", "request line exceeds limit\n");
        (q, data, r)
      else
        (p.(line := p.line + data), "", NeedMoreData)
  }

  function TooManyHeaderBytes(p: Parser, data: string): (Parser, string, StepResult) {
    var (q, r) := Fail(p, 431, "Request Header Fields Too Large", "headers exceed limit\n");
    (q, data, r)
  }

  function ParseHeaders(p: Parser, data: string): (r: (Parser, string, StepResult))
    requires p.phase == Headers
    ensures r.2 == Advanced ==> r.0.phase == Done || (r.0.phase == Body && Ok(r.0))
    ensures |r.1| <= |data| && (r.2 == Advanced ==> |r.1| < |data|)
    ensures (r.2 == NeedMoreData ==> r.0.phase == Headers) && (r.2 == Failed ==> Refused(r.0))
    decreases |data|, 0
  {
    if SplitCrlf(p.line, data) then
      var (q, r) := ConsumeHeaderLine(p, p.line[..|p.line| - 1]);
      AfterHeaderLine(q.(line := ""), data[1..], r)
    else
      var crlf := Crlf(data);
      if crlf == |data| then
        if !(p.line == "" && (data == "" || data == "\r")) && p.seen + |p.line| + |data| > MAX_HEADER_BYTES
        then TooManyHeaderBytes(p, data)
        else (p.(line := p.line + data), "", NeedMoreData)
      else if !(p.line == "" && crlf == 0) && p.seen + |p.line| + crlf + 2 > MAX_HEADER_BYTES
      then TooManyHeaderBytes(p, data)
      else
        var (q, r) := ConsumeHeaderLine(p, p.line + data[..crlf]);
        AfterHeaderLine(q.(line := ""), data[crlf + 2..], r)
  }

  /** The next header line, unless the headers are over. */
  function AfterHeaderLine(p: Parser, data: string, r: StepResult): (s: (Parser, string, StepResult))
    requires r != NeedMoreData && (r == Failed ==> Refused(p))
    requires r == Advanced ==> p.phase == Headers || p.phase == Done || (p.phase == Body && Ok(p))
    ensures s.2 == Advanced ==> s.0.phase == Done || (s.0.phase == Body && Ok(s.0))
    ensures |s.1| <= |data|
    ensures (s.2 == NeedMoreData ==> s.0.phase == Headers) && (s.2 == Failed ==> Refused(s.0))
    decreases |data|, 1
  {
    if r != Advanced || p.phase != Headers then (p, data, r) else ParseHeaders(p, data)
  }

  function ParseBody(p: Parser, data: string): (r: (Parser, string, StepResult))
    requires p.phase == Body && Ok(p)
    ensures Ok(r.0) && |r.1| <= |data| && (r.2 == Advanced ==> |r.1| < |data|)
    ensures r.2 != Failed && r.0.phase == if r.2 == NeedMoreData then Body else Done
  {
    var remaining := p.length.value - |p.request.body|;
    var take := if remaining < |data| then remaining else |data|;
    var q := p.(request := p.request.(body := p.request.body + data[..take]));
    if |q.request.body| < q.length.value then (q, data[take..], NeedMoreData)
    else (q.(phase := Done), data[take..], Advanced)
  }

  function FeedBody(p: Parser, data: string): (r: (Parser, string, Status))
    requires p.phase == Body && Ok(p)
    ensures Ok(r.0) && |r.1| <= |data| && (r.2 == Complete ==> |r.1| < |data|)
    ensures r.2 != Error && (r.2 == NeedMore ==> r.0.phase == Body)
  {
    var (q, rest, r) := ParseBody(p, data);
    (q, rest, if r == NeedMoreData then NeedMore else Complete)
  }

  function FeedHeaders(p: Parser, data: string): (r: (Parser, string, Status))
    requires p.phase == Headers
    ensures Ok(r.0) && |r.1| <= |data| && (r.2 == Complete ==> |r.1| < |data|)
    ensures (r.2 == NeedMore ==> r.0.phase != Done) && (r.2 == Error ==> Refused(r.0))
  {
    var (q, rest, r) := ParseHeaders(p, data);
    match r
    case NeedMoreData => (q, rest, NeedMore)
    case Failed => (q, rest, Error)
    case Advanced => if q.phase == Done then (q, rest, Complete) else FeedBody(q, rest)
  }

  /** feed: parses as far as the chunk goes, or to the end of the request; the second result is what is
      left of the chunk. */
  function Feed(p: Parser, data: string): (r: (Parser, string, Status))
    requires Ok(p)
    ensures Ok(r.0) && |r.1| <= |data| && (r.2 == Complete && p.phase != Done ==> |r.1| < |data|)
    ensures (r.2 == NeedMore ==> r.0.phase != Done) && (r.2 == Error ==> Refused(r.0))
  {
    match p.phase
    case Done => (p, data, Complete)
    case Body => FeedBody(p, data)
    case Headers => FeedHeaders(p, data)
    case RequestLine =>
      var (q, rest, r) := ParseRequestLine(p, data);
      match r
      case NeedMoreData => (q, rest, NeedMore)
      case Failed => (q, rest, Error)
      case Advanced => FeedHeaders(q, rest)
  }

  /** One turn of feed's loop. */
  function Turn(p: Parser, data: string): (Parser, string, StepResult)
    requires Ok(p) && p.phase != Done
  {
    match p.phase
    case RequestLine => ParseRequestLine(p, data)
    case Headers => ParseHeaders(p, data)
    case Body => ParseBody(p, data)
  }

  /** feed is its turns, one after the other. */
  lemma FeedByTurns(p: Parser, data: string)
    requires Ok(p) && p.phase != Done
    ensures var (q, rest, r) := Turn(p, data);
      && Ok(q) && (r == Advanced ==> Left(q.phase) < Left(p.phase))
      && Feed(p, data) == match r
         case NeedMoreData => (q, rest, NeedMore)
         case Failed => (q, rest, Error)
         case Advanced => if q.phase == Done then (q, rest, Complete) else Feed(q, rest)
  {
  }

  /** How many parts of a request are still to be read. */
  function Left(phase: Phase): nat {
    match phase
    case RequestLine => 3
    case Headers => 2
    case Body => 1
    case Done => 0
  }

  // ----- bytes: the reference -----

  /** One byte. A line ends when '\n' follows '\r'; only then is anything decided. */
  function Byte(p: Parser, c: char): (r: (Parser, Status))
    requires Ok(p)
    ensures Ok(r.0) && (r.1 == NeedMore ==> r.0.phase != Done) && (r.1 == Error ==> Refused(r.0))
  {
    match p.phase
    case RequestLine =>
      if EndsInCr(p.line) && c == '\n' then
        var (q, r) := FinishRequestLine(p, p.line[..|p.line| - 1]);
        (q.(line := ""), if r == Failed then Error else NeedMore)
      else (p.(line := p.line + [c]), NeedMore)
    case Headers =>
      if EndsInCr(p.line) && c == '\n' then
        var (q, r) := ConsumeHeaderLine(p, p.line[..|p.line| - 1]);
        (q.(line := ""), if r == Failed then Error else if q.phase == Done then Complete else NeedMore)
      else (p.(line := p.line + [c]), NeedMore)
    case Body =>
      var q := p.(request := p.request.(body := p.request.body + [c]));
      if |q.request.body| < q.length.value then (q, NeedMore) else (q.(phase := Done), Complete)
    case Done => (p, Complete)
  }

  function FeedBytes(p: Parser, data: string): (r: (Parser, string, Status))
    requires Ok(p)
    ensures Ok(r.0) && |r.1| <= |data| && (r.2 == Error ==> Refused(r.0))
    decreases |data|
  {
    if p.phase == Done then (p, data, Complete)
    else if data == "" then (p, "", NeedMore)
    else
      var (q, s) := Byte(p, data[0]);
      if s != NeedMore then (q, data[1..], s) else FeedBytes(q, data[1..])
  }

  /** The request line, and the header bytes, are below their caps. */
  predicate Below(p: Parser) {
    match p.phase
    case RequestLine => |p.line| <= MAX_REQUEST_LINE
    case Headers => p.seen + |p.line| < MAX_HEADER_BYTES
    case _ => true
  }

  /** They stay so for the rest of this request. */
  predicate StaysBelow(p: Parser, data: string)
    requires Ok(p)
    decreases |data|
  {
    Below(p) && (data != "" && p.phase != Done && Byte(p, data[0]).1 == NeedMore ==> StaysBelow(Byte(p, data[0]).0, data[1..]))
  }

  // ----- chunks refine bytes -----

  lemma {:induction false} BytesConcat(p: Parser, a: string, b: string)
    requires Ok(p)
    ensures var (q, rest, s) := FeedBytes(p, a);
      && FeedBytes(p, a + b) == (if s == NeedMore then FeedBytes(q, b) else (q, rest + b, s))
      && (StaysBelow(p, a + b) ==> StaysBelow(p, a) && (s == NeedMore ==> StaysBelow(q, b)))
    decreases |a|
  {
    if a == "" {
      assert a + b == b;
    } else if p.phase != Done {
      assert (a + b)[1..] == a[1..] + b;
      BytesConcat(Byte(p, a[0]).0, a[1..], b);
    }
  }

  predicate InLine(p: Parser) {
    p.phase == RequestLine || p.phase == Headers
  }

  /** Bytes without a line end only lengthen the line. */
  lemma {:induction false} PendingBytes(p: Parser, data: string)
    requires InLine(p) && !SplitCrlf(p.line, data) && Crlf(data) == |data|
    ensures FeedBytes(p, data) == (p.(line := p.line + data), "", NeedMore)
    ensures StaysBelow(p, data) ==> Below(p.(line := p.line + data))
    decreases |data|
  {
    if data == "" {
      assert p.line + data == p.line;
    } else {
      var q := p.(line := p.line + [data[0]]);
      assert Byte(p, data[0]) == (q, NeedMore);
      assert |data| >= 2 ==> !CrlfAt(data, 0);
      PendingBytes(q, data[1..]);
      assert p.line + [data[0]] + data[1..] == p.line + data;
    }
  }

  lemma UpToLineEnd(data: string)
    requires Crlf(data) < |data|
    ensures var k := Crlf(data); k + 1 < |data| && data[k..k + 2] == "\r\n" && Crlf(data[..k + 1]) == k + 1
  {
    var k := Crlf(data);
    var head := data[..k + 1];
    assert CrlfAt(data, k);
    forall j: nat ensures !CrlfAt(head, j) {
      assert CrlfAt(head, j) ==> CrlfAt(data, j) && j < k;
    }
  }

  /** The parser in the middle of the first line end of `data`, and what follows the line. */
  function AtLineEnd(p: Parser, data: string): (m: Parser)
    requires Crlf(data) < |data|
  {
    p.(line := p.line + data[..Crlf(data)] + "\r")
  }

  function AfterLineEnd(data: string): (rest: string)
    requires Crlf(data) < |data|
    ensures |rest| < |data|
  {
    assert CrlfAt(data, Crlf(data));
    data[Crlf(data) + 2..]
  }

  /** Up to and with the '\r' of the first line end, bytes only lengthen the line. */
  lemma LineBytes(p: Parser, data: string)
    requires InLine(p) && !SplitCrlf(p.line, data) && Crlf(data) < |data|
    ensures FeedBytes(p, data) == FeedBytes(AtLineEnd(p, data), "\n" + AfterLineEnd(data))
    ensures StaysBelow(p, data) ==> StaysBelow(AtLineEnd(p, data), "\n" + AfterLineEnd(data))
  {
    var k := Crlf(data);
    UpToLineEnd(data);
    CutAtLineEnd(p.line, data);
    PendingBytes(p, data[..k + 1]);
    BytesConcat(p, data[..k + 1], "\n" + AfterLineEnd(data));
  }

  lemma CutAtLineEnd(line: string, data: string)
    requires Crlf(data) < |data|
    ensures var k := Crlf(data); k + 1 < |data| && data == data[..k + 1] + ("\n" + AfterLineEnd(data)) && line + data[..k + 1] == line + data[..k] + "\r"
  {
    UpToLineEnd(data);
    var k := Crlf(data);
    assert data[k] == data[k..k + 2][0] && data[k + 1] == data[k..k + 2][1];
    CutString(data, k);
    ExtendString(line, data, k);
  }

  lemma CutString(data: string, k: nat)
    requires k + 1 < |data| && data[k + 1] == '\n'
    ensures data == data[..k + 1] + ("\n" + data[k + 2..])
  {
  }

  lemma ExtendString(line: string, data: string, k: nat)
    requires k < |data| && data[k] == '\r'
    ensures line + data[..k + 1] == line + data[..k] + "\r"
  {
    assert data[..k + 1] == data[..k] + "\r";
  }

  /** The byte that ends a line hands it over. */
  lemma EndOfLine(p: Parser, content: string, data: string)
    requires InLine(p) && p.line == content + "\r" && data != "" && data[0] == '\n'
    ensures EndsInCr(p.line) && p.line[..|p.line| - 1] == content
    ensures StaysBelow(p, data) ==> Below(p)
  {
  }

  lemma {:induction false} BodyIsBytes(p: Parser, data: string)
    requires p.phase == Body && Ok(p)
    ensures FeedBody(p, data) == FeedBytes(p, data)
    decreases |data|
  {
    if data != "" {
      var q := Byte(p, data[0]).0;
      if q.phase == Body {
        BodyIsBytes(q, data[1..]);
        var remaining := p.length.value - |p.request.body|;
        var take := if remaining < |data| then remaining else |data|;
        assert p.request.body + [data[0]] + data[1..][..take - 1] == p.request.body + data[..take];
        assert data[1..][take - 1..] == data[take..];
      } else {
        assert p.request.body + data[..1] == p.request.body + [data[0]];
      }
    } else {
      assert p.request.body + data[..0] == p.request.body;
    }
  }

  /** A header line that has just ended: what follows it. */
  lemma AfterLine(p: Parser, content: string, data: string)
    requires p.phase == Headers && p.line == content + "\r" && data != "" && data[0] == '\n'
    ensures var (q, r) := ConsumeHeaderLine(p, content); var next := q.(line := "");
      && Ok(next)
      && Byte(p, data[0]) == (next, if r == Failed then Error else if q.phase == Done then Complete else NeedMore)
      && FeedBytes(p, data) == (if r == Failed then (next, data[1..], Error)
                                else if q.phase == Done then (next, data[1..], Complete)
                                else FeedBytes(next, data[1..]))
      && (StaysBelow(p, data) && r == Advanced && q.phase != Done ==> StaysBelow(next, data[1..]))
  {
    EndOfLine(p, content, data);
  }

  function FinishFeed(q: Parser, rest: string, r: StepResult): (Parser, string, Status)
    requires r == Advanced ==> q.phase == Done || (q.phase == Body && Ok(q))
  {
    match r
    case NeedMoreData => (q, rest, NeedMore)
    case Failed => (q, rest, Error)
    case Advanced => if q.phase == Done then (q, rest, Complete) else FeedBody(q, rest)
  }

  /** The parser takes a header line of which `content` is all, and goes on with `rest`. */
  lemma LineGoesOn(p: Parser, m: Parser, content: string, data: string, rest: string)
    requires p.phase == Headers && m == p.(line := content + "\r") && data == "\n" + rest && StaysBelow(m, data)
    requires forall q: Parser :: q.phase == Headers && StaysBelow(q, rest) ==> FeedHeaders(q, rest) == FeedBytes(q, rest)
    ensures var (q, r) := ConsumeHeaderLine(p, content); var (a, b, c) := AfterHeaderLine(q.(line := ""), rest, r);
      FinishFeed(a, b, c) == FeedBytes(m, data)
  {
    AfterLine(m, content, data);
    assert data[1..] == rest;
    LineIsNotRead(p, content, content + "\r");
    var (q, r) := ConsumeHeaderLine(p, content);
    var next := q.(line := "");
    if r == Advanced && q.phase == Body { BodyIsBytes(next, rest); }
  }

  /** What becomes of a line does not depend on what the line buffer still holds. */
  lemma LineIsNotRead(p: Parser, content: string, buffer: string)
    requires p.phase == Headers
    ensures var (q, r) := ConsumeHeaderLine(p, content);
      ConsumeHeaderLine(p.(line := buffer), content) == (q.(line := buffer), r)
  {
  }

  lemma HeadersAtLineEnd(p: Parser, data: string)
    requires p.phase == Headers && StaysBelow(p, data) && !SplitCrlf(p.line, data) && Crlf(data) < |data|
    requires forall q: Parser :: q.phase == Headers && StaysBelow(q, AfterLineEnd(data)) ==> FeedHeaders(q, AfterLineEnd(data)) == FeedBytes(q, AfterLineEnd(data))
    ensures FeedHeaders(p, data) == FeedBytes(p, data)
  {
    LineBytes(p, data);
    LineGoesOn(p, AtLineEnd(p, data), p.line + data[..Crlf(data)], "\n" + AfterLineEnd(data), AfterLineEnd(data));
    assert Below(AtLineEnd(p, data));
  }

  lemma HeadersPending(p: Parser, data: string)
    requires p.phase == Headers && StaysBelow(p, data) && !SplitCrlf(p.line, data) && Crlf(data) == |data|
    ensures FeedHeaders(p, data) == FeedBytes(p, data)
  {
    PendingBytes(p, data);
  }

  lemma HeadersAtSplit(p: Parser, data: string)
    requires p.phase == Headers && StaysBelow(p, data) && SplitCrlf(p.line, data)
    requires forall q: Parser :: q.phase == Headers && StaysBelow(q, data[1..]) ==> FeedHeaders(q, data[1..]) == FeedBytes(q, data[1..])
    ensures FeedHeaders(p, data) == FeedBytes(p, data)
  {
    SplitForm(p, data);
    LineGoesOn(p, p, p.line[..|p.line| - 1], data, data[1..]);
  }

  lemma SplitForm(p: Parser, data: string)
    requires SplitCrlf(p.line, data)
    ensures p == p.(line := p.line[..|p.line| - 1] + "\r") && data == "\n" + data[1..]
  {
  }

  lemma {:induction false} HeadersAreBytes(p: Parser, data: string)
    requires p.phase == Headers && StaysBelow(p, data)
    ensures FeedHeaders(p, data) == FeedBytes(p, data)
    decreases |data|
  {
    if !SplitCrlf(p.line, data) && Crlf(data) == |data| {
      HeadersPending(p, data);
    } else {
      var rest := if SplitCrlf(p.line, data) then data[1..] else AfterLineEnd(data);
      forall q: Parser | q.phase == Headers && StaysBelow(q, rest) ensures FeedHeaders(q, rest) == FeedBytes(q, rest) {
        HeadersAreBytes(q, rest);
      }
      if SplitCrlf(p.line, data) { HeadersAtSplit(p, data); } else { HeadersAtLineEnd(p, data); }
    }
  }

  lemma RequestLineIsBytes(p: Parser, data: string)
    requires p.phase == RequestLine && StaysBelow(p, data)
    ensures Feed(p, data) == FeedBytes(p, data)
  {
    if SplitCrlf(p.line, data) {
      var content, rest := p.line[..|p.line| - 1], data[1..];
      assert p == p.(line := content + "\r") && data == "\n" + rest;
      RequestLineEnds(p, p, content, data, rest);
    } else if Crlf(data) == |data| {
      RequestPending(p, data);
    } else {
      RequestAtLineEnd(p, data);
    }
  }

  lemma RequestPending(p: Parser, data: string)
    requires p.phase == RequestLine && StaysBelow(p, data) && !SplitCrlf(p.line, data) && Crlf(data) == |data|
    ensures Feed(p, data) == FeedBytes(p, data)
  {
    PendingBytes(p, data);
  }

  lemma RequestAtLineEnd(p: Parser, data: string)
    requires p.phase == RequestLine && StaysBelow(p, data) && !SplitCrlf(p.line, data) && Crlf(data) < |data|
    ensures Feed(p, data) == FeedBytes(p, data)
  {
    LineBytes(p, data);
    RequestLineEnds(p, AtLineEnd(p, data), p.line + data[..Crlf(data)], "\n" + AfterLineEnd(data), AfterLineEnd(data));
    assert Below(AtLineEnd(p, data));
  }

  lemma RequestLineEnds(p: Parser, m: Parser, content: string, data: string, rest: string)
    requires p.phase == RequestLine && m == p.(line := content + "\r") && data == "\n" + rest && StaysBelow(m, data)
    ensures var (q, r) := FinishRequestLine(p, content);
      FeedBytes(m, data) == if r == Failed then (q.(line := ""), rest, Error) else FeedHeaders(q.(line := ""), rest)
  {
    EndOfLine(m, content, data);
    assert data[1..] == rest;
    RequestLineIsNotRead(p, content, content + "\r");
    var (q, r) := FinishRequestLine(p, content);
    if r == Advanced { HeadersAreBytes(q.(line := ""), rest); }
  }

  lemma RequestLineIsNotRead(p: Parser, content: string, buffer: string)
    requires p.phase == RequestLine
    ensures var (q, r) := FinishRequestLine(p, content);
      FinishRequestLine(p.(line := buffer), content) == (q.(line := buffer), r)
  {
  }

  /** feed, on any chunk, does what the bytes of the chunk do one by one, as long as the request line and
      the header bytes stay below their caps. */
  lemma FeedIsBytes(p: Parser, data: string)
    requires Ok(p) && StaysBelow(p, data)
    ensures Feed(p, data) == FeedBytes(p, data)
  {
    match p.phase
    case Done =>
    case Body => BodyIsBytes(p, data);
    case Headers => HeadersAreBytes(p, data);
    case RequestLine => RequestLineIsBytes(p, data);
  }
}
