/** The parser object: the fields that carry a request across chunks, updated in place.
    (projects/05-arcserve/src/protocol/http_parser.cpp) */
module HttpRequestParser {
  import opened HttpParser

  class RequestParser {
    var phase: Phase
    var lineBuffer: string
    var headerBytesSeen: nat
    var contentLength: Option<nat>
    var request: Request
    var errorResponse: Option<Response>

    ghost function Now(): Parser
      reads this
    {
      Parser(phase, lineBuffer, headerBytesSeen, contentLength, request, errorResponse)
    }

    constructor ()
      ensures Now() == FRESH
    {
      phase, lineBuffer, headerBytesSeen, contentLength := RequestLine, "", 0, None;
      request, errorResponse := NO_REQUEST, None;
    }

    method Reset()
      modifies this
      ensures Now() == FRESH
    {
      phase, lineBuffer, headerBytesSeen, contentLength := RequestLine, "", 0, None;
      request, errorResponse := NO_REQUEST, None;
    }

    /** feed: `rest` is what the caller's view of the chunk is left with. When more data is needed the
        whole chunk has been taken in. */
    method FeedChunk(data: string) returns (status: Status, rest: string)
      requires Ok(Now())
      modifies this
      ensures (Now(), rest, status) == Feed(old(Now()), data)
      ensures Ok(Now()) && (status == Error ==> Refused(Now()))
    {
      rest := data;
      while phase != Done
        invariant Ok(Now()) && Feed(Now(), rest) == Feed(old(Now()), data)
        decreases Left(phase)
      {
        FeedByTurns(Now(), rest);
        var result;
        rest, result := TakeTurn(rest);
        match result {
          case NeedMoreData => return NeedMore, rest;
          case Failed => return Error, rest;
          case Advanced =>
            if phase == Done {
              return Complete, rest;
            }
        }
      }
      status := Complete;
    }

    method TakeTurn(data: string) returns (rest: string, result: StepResult)
      requires Ok(Now()) && phase != Done
      modifies this
      ensures (Now(), rest, result) == Turn(old(Now()), data)
    {
      if phase == RequestLine {
        rest, result := ParseLine(data);
      } else if phase == Headers {
        rest, result := ParseHeaderLines(data);
      } else {
        rest, result := ParseBodyBytes(data);
      }
    }

    method FailStep(status: nat, reason: string, body: string) returns (result: StepResult)
      modifies this`phase, this`errorResponse
      ensures (Now(), result) == Fail(old(Now()), status, reason, body)
    {
      errorResponse := Some(Response(status, reason, [Header("Content-Type", "text/plain")], body, false));
      phase := Done;
      result := Failed;
    }

    /** parse_request_line. */
    method ParseLine(data: string) returns (rest: string, result: StepResult)
      requires phase == RequestLine
      modifies this
      ensures (Now(), rest, result) == ParseRequestLine(old(Now()), data)
    {
      if lineBuffer != "" && lineBuffer[|lineBuffer| - 1] == '\r' && data != "" && data[0] == '\n' {
        rest := data[1..];
        result := FinishLine(lineBuffer[..|lineBuffer| - 1]);
        lineBuffer := "";
        return;
      }
      var crlf := Crlf(data);
      if crlf < |data| {
        rest, result := TakeLine(data, crlf);
      } else {
        rest, result := BufferChunk(data);
      }
    }

    /** parse_request_line when the chunk has the end of the line. */
    method TakeLine(data: string, crlf: nat) returns (rest: string, result: StepResult)
      requires phase == RequestLine && !SplitCrlf(lineBuffer, data) && crlf == Crlf(data) < |data|
      modifies this
      ensures (Now(), rest, result) == ParseRequestLine(old(Now()), data)
    {
      if |lineBuffer| + crlf > MAX_REQUEST_LINE {
        result := FailStep(400, "Bad Request", "request line exceeds limit\n");
        return data, result;
      }
      rest := data[crlf + 2..];
      result := FinishBuffered(data[..crlf]);
    }

    /** parse_request_line when it has not. */
    method BufferChunk(data: string) returns (rest: string, result: StepResult)
      requires phase == RequestLine && !SplitCrlf(lineBuffer, data) && Crlf(data) == |data|
      modifies this
      ensures (Now(), rest, result) == ParseRequestLine(old(Now()), data)
    {
      var couldBeTerminatorStart := |data| == 1 && data[0] == '\r';
      if !couldBeTerminatorStart && |lineBuffer| + |data| > MAX_REQUEST_LINE {
        result := FailStep(400, "Bad Request", "request line exceeds limit\n");
        return data, result;
      }
      lineBuffer := lineBuffer + data;
      rest, result := "", NeedMoreData;
    }

    /** Appends the rest of the line to the buffered part, and parses the line. */
    method FinishBuffered(tail: string) returns (result: StepResult)
      requires phase == RequestLine
      modifies this
      ensures var (q, r) := FinishRequestLine(old(Now()), old(lineBuffer) + tail); Now() == q.(line := "") && result == r
    {
      RequestLineIsNotRead(Now(), lineBuffer + tail, lineBuffer + tail);
      lineBuffer := lineBuffer + tail;
      result := FinishLine(lineBuffer);
      lineBuffer := "";
    }

    /** finish_request_line. */
    method FinishLine(line: string) returns (result: StepResult)
      requires phase == RequestLine
      modifies this
      ensures (Now(), result) == FinishRequestLine(old(Now()), line)
    {
      var first := IndexOf(line, ' ');
      if first == |line| {
        result := FailStep(400, "Bad Request", "malformed request line\n");
        return;
      }
      var verb, rest := line[..first], line[first + 1..];
      var second := IndexOf(rest, ' ');
      if second == |rest| {
        result := FailStep(400, "Bad Request", "malformed request line\n");
        return;
      }
      var target, version := rest[..second], rest[second + 1..];
      if target == "" || version == "" || ' ' in target {
        result := FailStep(400, "Bad Request", "malformed request line\n");
        return;
      }
      if verb == "GET" {
        request := request.(verb := Get);
      } else if verb == "POST" {
        request := request.(verb := Post);
      } else {
        result := FailStep(501, "Not Implemented", "unsupported method\n");
        return;
      }
      if target[0] != '/' {
        result := FailStep(400, "Bad Request", "request target must be origin-form\n");
        return;
      }
      request := request.(target := target);
      if version != "HTTP/1.1" {
        result := FailStep(505, "HTTP Version Not Supported", "only HTTP/1.1 is supported\n");
        return;
      }
      request := request.(version := version);
      phase, headerBytesSeen := Headers, 0;
      result := Advanced;
    }

    /** parse_headers: as many whole header lines as the chunk has. */
    method ParseHeaderLines(data: string) returns (rest: string, result: StepResult)
      requires phase == Headers
      modifies this
      ensures (Now(), rest, result) == ParseHeaders(old(Now()), data)
    {
      rest := data;
      while true
        invariant phase == Headers && ParseHeaders(Now(), rest) == ParseHeaders(old(Now()), data)
        decreases |rest|
      {
        if lineBuffer != "" && lineBuffer[|lineBuffer| - 1] == '\r' && rest != "" && rest[0] == '\n' {
          rest := rest[1..];
          result := ConsumeLine(lineBuffer[..|lineBuffer| - 1]);
          lineBuffer := "";
        } else {
          var crlf := Crlf(rest);
          if crlf == |rest| {
            var couldStillBeTerminator := lineBuffer == "" && (rest == "" || rest == "\r");
            if !couldStillBeTerminator && headerBytesSeen + |lineBuffer| + |rest| > MAX_HEADER_BYTES {
              result := FailStep(431, "Request Header Fields Too Large", "headers exceed limit\n");
              return;
            }
            lineBuffer := lineBuffer + rest;
            return "", NeedMoreData;
          }
          var terminator := lineBuffer == "" && crlf == 0;
          if !terminator && headerBytesSeen + |lineBuffer| + crlf + 2 > MAX_HEADER_BYTES {
            result := FailStep(431, "Request Header Fields Too Large", "headers exceed limit\n");
            return;
          }
          ghost var before := Now();
          lineBuffer := lineBuffer + rest[..crlf];
          LineIsNotRead(before, lineBuffer, lineBuffer);
          rest := rest[crlf + 2..];
          result := ConsumeLine(lineBuffer);
          lineBuffer := "";
        }
        if result != Advanced || phase != Headers {
          return;
        }
      }
    }

    /** consume_header_line. */
    method ConsumeLine(line: string) returns (result: StepResult)
      requires phase == Headers
      modifies this
      ensures (Now(), result) == ConsumeHeaderLine(old(Now()), line)
    {
      if line == "" {
        result := FinishHeaderBlock();
        return;
      }
      if '\r' in line || '\n' in line {
        result := FailStep(400, "Bad Request", "malformed header line\n");
        return;
      }
      var colon := IndexOf(line, ':');
      if colon == |line| || colon == 0 {
        result := FailStep(400, "Bad Request", "malformed header line\n");
        return;
      }
      var name := line[..colon];
      var value := TrimSpace(line[colon + 1..]);
      if ' ' in name || '\t' in name {
        result := FailStep(400, "Bad Request", "malformed header name\n");
        return;
      }
      if headerBytesSeen + |line| + 2 > MAX_HEADER_BYTES {
        result := FailStep(431, "Request Header Fields Too Large", "headers exceed limit\n");
        return;
      }
      headerBytesSeen := headerBytesSeen + |line| + 2;
      if SameIgnoringCase(name, "Content-Length") && FindHeader(request.headers, "Content-Length").Some? {
        result := FailStep(400, "Bad Request", "duplicate Content-Length header\n");
        return;
      }
      if |request.headers| >= MAX_HEADER_COUNT {
        result := FailStep(431, "Request Header Fields Too Large", "too many headers\n");
        return;
      }
      request := request.(headers := request.headers + [Header(name, value)]);
      result := Advanced;
    }

    /** finish_headers. */
    method FinishHeaderBlock() returns (result: StepResult)
      modifies this
      ensures (Now(), result) == FinishHeaders(old(Now()))
    {
      var declared := FindHeader(request.headers, "Content-Length");
      if declared.Some? {
        var value := ParseSize(declared.value);
        if value == None {
          result := FailStep(400, "Bad Request", "invalid Content-Length\n");
          return;
        }
        if value.value > MAX_BODY {
          result := FailStep(413, "Payload Too Large", "body exceeds limit\n");
          return;
        }
        contentLength := value;
      } else if request.verb == Post {
        result := FailStep(411, "Length Required", "POST requires Content-Length\n");
        return;
      } else {
        contentLength := Some(0);
      }
      request := request.(body := "");
      phase := if contentLength.value == 0 then Done else Body;
      result := Advanced;
    }

    /** parse_body. */
    method ParseBodyBytes(data: string) returns (rest: string, result: StepResult)
      requires phase == Body && Ok(Now())
      modifies this
      ensures (Now(), rest, result) == ParseBody(old(Now()), data)
    {
      var remaining := contentLength.value - |request.body|;
      var take := if remaining < |data| then remaining else |data|;
      request := request.(body := request.body + data[..take]);
      rest := data[take..];
      if |request.body| < contentLength.value {
        return rest, NeedMoreData;
      }
      phase := Done;
      result := Advanced;
    }
  }

  /** Optional white space around a field value. */
  method TrimSpace(s: string) returns (t: string)
    ensures t == TrimRight(TrimLeft(s))
  {
    t := s;
    while t != "" && Blank(t[0])
      invariant TrimLeft(t) == TrimLeft(s)
      decreases |t|
    {
      t := t[1..];
    }
    while t != "" && Blank(t[|t| - 1])
      invariant TrimRight(t) == TrimRight(TrimLeft(s))
      decreases |t|
    {
      t := t[..|t| - 1];
    }
  }
}
