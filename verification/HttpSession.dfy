/** A connection's byte stream, cut into chunks in any way: below the size caps, the requests, the
    first error and the bytes used do not depend on the cuts; at the cap they do.
    (projects/05-arcserve/src/protocol/http_parser.cpp) */
module HttpSession {
  import opened HttpParser

  /** What a connection has yielded: requests, in order, and perhaps a first error, after which nothing
      more is read; the parser it leaves; how many bytes have been used. */
  datatype Trace = Trace(requests: seq<Request>, error: Option<Response>, p: Parser, used: nat)

  function Then(t: Trace, u: Trace): Trace {
    if t.error.Some? then t else Trace(t.requests + u.requests, u.error, u.p, t.used + u.used)
  }

  predicate Open(p: Parser) {
    Ok(p) && p.phase != Done
  }

  /** The reference: the stream byte by byte, with a reset after each request. */
  function RunBytes(p: Parser, data: string): (t: Trace)
    requires Open(p)
    ensures t.error == None ==> Open(t.p) && t.used == |data|
    decreases |data|
  {
    if data == "" then Trace([], None, p, 0)
    else
      var (q, s) := Byte(p, data[0]);
      match s
      case NeedMore => Then(Trace([], None, q, 1), RunBytes(q, data[1..]))
      case Complete => Then(Trace([q.request], None, FRESH, 1), RunBytes(FRESH, data[1..]))
      case Error => Trace([], q.error, q, 1)
  }

  /** One chunk: feed, and as long as that completes a request, reset and feed the rest. */
  function RunChunk(p: Parser, data: string): (t: Trace)
    requires Open(p)
    ensures t.error == None ==> Open(t.p)
    decreases |data|, 1
  {
    AfterFeed(Feed(p, data), |data|)
  }

  /** What comes of a chunk of `size` bytes once it has been fed. */
  function AfterFeed(fed: (Parser, string, Status), size: nat): (t: Trace)
    requires |fed.1| <= size && (fed.2 == Complete ==> |fed.1| < size) && (fed.2 == NeedMore ==> Open(fed.0)) && (fed.2 == Error ==> Refused(fed.0))
    ensures t.error == None ==> Open(t.p)
    decreases size, 0
  {
    var (q, rest, s) := fed;
    match s
    case NeedMore => Trace([], None, q, size - |rest|)
    case Complete => Then(Trace([q.request], None, FRESH, size - |rest|), RunChunk(FRESH, rest))
    case Error => Trace([], q.error, q, size - |rest|)
  }

  /** The chunks, one after the other. */
  function RunChunks(p: Parser, chunks: seq<string>): Trace
    requires Open(p)
    decreases |chunks|
  {
    if chunks == [] then Trace([], None, p, 0)
    else
      var t := RunChunk(p, chunks[0]);
      if t.error.Some? then t else Then(t, RunChunks(t.p, chunks[1..]))
  }

  function Concat(chunks: seq<string>): string {
    if chunks == [] then "" else chunks[0] + Concat(chunks[1..])
  }

  /** Every request line and every request's header bytes stay below their caps. */
  predicate SessionBelow(p: Parser, data: string)
    requires Open(p)
    decreases |data|
  {
    && Below(p)
    && (data != "" ==>
          var (q, s) := Byte(p, data[0]);
          match s
          case NeedMore => SessionBelow(q, data[1..])
          case Complete => SessionBelow(FRESH, data[1..])
          case Error => true)
  }

  lemma {:induction false} BytesConcat(p: Parser, a: string, b: string)
    requires Open(p)
    ensures var t := RunBytes(p, a);
      && RunBytes(p, a + b) == (if t.error.Some? then t else Then(t, RunBytes(t.p, b)))
      && (SessionBelow(p, a + b) ==> SessionBelow(p, a) && (t.error == None ==> SessionBelow(t.p, b)))
    decreases |a|
  {
    if a == "" {
      assert a + b == b;
      assert [] + RunBytes(p, b).requests == RunBytes(p, b).requests;
    } else {
      assert (a + b)[1..] == a[1..] + b;
      var (q, s) := Byte(p, a[0]);
      if s != Error {
        var next := if s == NeedMore then q else FRESH;
        BytesConcat(next, a[1..], b);
        var u := RunBytes(next, a[1..]);
        if u.error == None {
          ThenIsAssociative(Trace(if s == NeedMore then [] else [q.request], None, next, 1), u, RunBytes(u.p, b));
        }
      }
    }
  }

  lemma ThenIsAssociative(t: Trace, u: Trace, v: Trace)
    ensures Then(Then(t, u), v) == Then(t, Then(u, v))
  {
    assert t.requests + u.requests + v.requests == t.requests + (u.requests + v.requests);
  }

  /** What comes of `size` bytes read one by one up to the end of a request. */
  function AfterBytes(fed: (Parser, string, Status), size: nat): Trace
    requires |fed.1| <= size
  {
    var (q, rest, s) := fed;
    match s
    case NeedMore => Trace([], None, q, size)
    case Complete => Then(Trace([q.request], None, FRESH, size - |rest|), RunBytes(FRESH, rest))
    case Error => Trace([], q.error, q, size - |rest|)
  }

  lemma OneByteMore(fed: (Parser, string, Status), size: nat, q: Parser)
    requires |fed.1| <= size
    ensures Then(Trace([], None, q, 1), AfterBytes(fed, size)) == AfterBytes(fed, size + 1)
  {
    assert [] + AfterBytes(fed, size).requests == AfterBytes(fed, size).requests;
  }

  /** The reference, request by request. */
  lemma {:induction false} BytesByRequest(p: Parser, data: string)
    requires Open(p)
    ensures RunBytes(p, data) == AfterBytes(FeedBytes(p, data), |data|)
    decreases |data|
  {
    if data != "" {
      var (q, s) := Byte(p, data[0]);
      if s == NeedMore {
        BytesByRequest(q, data[1..]);
        OneByteMore(FeedBytes(q, data[1..]), |data| - 1, q);
      }
    }
  }

  lemma {:induction false} BelowByRequest(p: Parser, data: string)
    requires Open(p) && SessionBelow(p, data)
    ensures StaysBelow(p, data) && (FeedBytes(p, data).2 == Complete ==> SessionBelow(FRESH, FeedBytes(p, data).1))
    decreases |data|
  {
    if data != "" {
      var (q, s) := Byte(p, data[0]);
      if s == NeedMore {
        BelowByRequest(q, data[1..]);
      }
    }
  }

  lemma {:induction false} ChunkIsBytes(p: Parser, data: string)
    requires Open(p) && SessionBelow(p, data)
    ensures RunChunk(p, data) == RunBytes(p, data)
    decreases |data|
  {
    BytesByRequest(p, data);
    BelowByRequest(p, data);
    FeedIsBytes(p, data);
    var fed := FeedBytes(p, data);
    if fed.2 == Complete {
      ChunkIsBytes(FRESH, fed.1);
    } else if fed.2 == NeedMore {
      AllUsed(p, data);
    }
  }

  lemma {:induction false} AllUsed(p: Parser, data: string)
    requires Open(p) && FeedBytes(p, data).2 == NeedMore
    ensures FeedBytes(p, data).1 == ""
    decreases |data|
  {
    if data != "" {
      AllUsed(Byte(p, data[0]).0, data[1..]);
    }
  }

  /** Below the caps, a session yields the same requests, the same first error, the same parser and the
      same number of bytes used, however its stream is cut into chunks: those of the stream read byte by
      byte. */
  lemma {:induction false} ChunkingDoesNotMatter(p: Parser, chunks: seq<string>)
    requires Open(p) && SessionBelow(p, Concat(chunks))
    ensures RunChunks(p, chunks) == RunBytes(p, Concat(chunks))
    decreases |chunks|
  {
    if chunks != [] {
      BytesConcat(p, chunks[0], Concat(chunks[1..]));
      ChunkIsBytes(p, chunks[0]);
      var t := RunBytes(p, chunks[0]);
      if t.error == None {
        ChunkingDoesNotMatter(t.p, chunks[1..]);
      }
    }
  }

  /** Two ways to cut the same stream. */
  lemma AnyTwoChunkingsAgree(a: seq<string>, b: seq<string>)
    requires Concat(a) == Concat(b) && SessionBelow(FRESH, Concat(a))
    ensures RunChunks(FRESH, a) == RunChunks(FRESH, b)
  {
    ChunkingDoesNotMatter(FRESH, a);
    ChunkingDoesNotMatter(FRESH, b);
  }

  // ----- at the cap -----

  lemma NoLineEnd(line: string, tail: string)
    requires Crlf(line) == |line|
    ensures tail == "\r" ==> Crlf(line + tail) == |line| + 1
    ensures tail == "\r\n" ==> Crlf(line + tail) == |line|
  {
    var s := line + tail;
    if tail == "\r" || tail == "\r\n" {
      forall j: nat ensures j < |line| ==> !CrlfAt(s, j) {
        assert j + 1 < |line| ==> (CrlfAt(s, j) <==> CrlfAt(line, j));
        assert j + 1 == |line| ==> s[j + 1] == '\r';
      }
    }
    if tail == "\r\n" { assert CrlfAt(s, |line|); }
  }

  lemma NoBytesYet(q: Parser)
    requires q.phase == Headers && q.line == ""
    ensures FeedHeaders(q, "") == (q, "", NeedMore)
  {
    assert "" + "" == "";
  }

  lemma WholeIsParsed(line: string)
    requires Crlf(line) == |line|
    ensures var (q, r) := FinishRequestLine(FRESH, line);
      ParseRequestLine(FRESH, line + "\r\n") ==
        if |line| > MAX_REQUEST_LINE then (Fail(FRESH, 400, "Bad Request", "request line exceeds limit\n").0, line + "\r\n", Failed)
        else (q.(line := ""), "", r)
  {
    NoLineEnd(line, "\r\n");
    var whole := line + "\r\n";
    assert "" + whole[..|line|] == line && whole[|line| + 2..] == "";
  }

  lemma FirstPieceIsParsed(line: string)
    requires Crlf(line) == |line| && line != ""
    ensures ParseRequestLine(FRESH, line + "\r") ==
      if |line| >= MAX_REQUEST_LINE then (Fail(FRESH, 400, "Bad Request", "request line exceeds limit\n").0, line + "\r", Failed)
      else (FRESH.(line := line + "\r"), "", NeedMoreData)
  {
    NoLineEnd(line, "\r");
    assert "" + (line + "\r") == line + "\r";
  }

  lemma SecondPieceIsParsed(line: string)
    ensures var (q, r) := FinishRequestLine(FRESH, line);
      ParseRequestLine(FRESH.(line := line + "\r"), "\n") == (q.(line := ""), "", r)
  {
    assert (line + "\r")[..|line|] == line && "\n"[1..] == "";
    RequestLineIsNotRead(FRESH, line, line + "\r");
  }

  lemma {:induction false} FoundAt(s: string, c: char, i: nat)
    requires i < |s| && s[i] == c && c !in s[..i]
    ensures IndexOf(s, c) == i
  {
    assert forall j :: 0 <= j < i ==> s[j] in s[..i];
    assert forall j :: 0 <= j < IndexOf(s, c) ==> s[j] in s[..IndexOf(s, c)];
  }

  /** Such request lines exist. */
  lemma LineAtTheCap() returns (line: string)
    ensures |line| == MAX_REQUEST_LINE && Crlf(line) == |line| && !EndsInCr(line) && FinishRequestLine(FRESH, line).1 == Advanced
  {
    var target := "/" + seq(MAX_REQUEST_LINE - 14, _ => 'a');
    var rest := target + " HTTP/1.1";
    line := "GET " + rest;
    assert line[..3] == "GET" && line[4..] == rest && rest[..|target|] == target && rest[|target| + 1..] == "HTTP/1.1";
    FoundAt(line, ' ', 3);
    FoundAt(rest, ' ', |target|);
    assert forall i :: 0 <= i < |line| ==> line[i] != '\r';
    assert Crlf(line) == |line|;
  }
}
