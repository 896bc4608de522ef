/** A connection of the non-blocking HTTP server as the objects that it is: buffers, parser and state,
    updated in place by the reactor's callbacks. Each callback does what ServerProtocol says of it.
    (projects/05-arcserve/src/buffers/byte_buffer.cpp, src/reactor/output_queue.cpp, src/reactor/connection.cpp,
    src/server/nonblocking_http_server.cpp) */
module ServerConnection {
  import opened HttpParser
  import opened HttpSession
  import opened HttpRequestParser
  import opened ServerProtocol

  /** Bytes that are appended at the back and consumed at the front; consumed bytes are dropped from the
      storage only once they are half of it. */
  class ByteBuffer {
    var storage: string
    var readOffset: nat
    const maxCapacity: nat

    ghost predicate Valid()
      reads this
    {
      readOffset <= |storage| && |storage| <= 2 * (|storage| - readOffset) + 1 && |storage| - readOffset <= maxCapacity
    }

    function View(): string
      requires readOffset <= |storage|
      reads this
    {
      storage[readOffset..]
    }

    constructor (maxCapacity: nat)
      ensures Valid() && View() == "" && this.maxCapacity == maxCapacity
    {
      this.maxCapacity, storage, readOffset := maxCapacity, "", 0;
    }

    /** All of the data, or none of it if it would pass the capacity. */
    method Append(data: string) returns (ok: bool)
      requires Valid()
      modifies this
      ensures Valid() && (ok <==> |old(View())| + |data| <= maxCapacity)
      ensures View() == if ok then old(View()) + data else old(View())
    {
      if data == "" {
        return true;
      }
      if |data| > maxCapacity - (|storage| - readOffset) {
        return false;
      }
      ghost var was := View();
      storage := storage + data;
      assert View() == was + data;
      ok := true;
    }

    /** Drops n bytes at the front, or all there are. The storage never keeps more than twice what is left. */
    method Consume(n: nat)
      requires Valid()
      modifies this
      ensures Valid() && View() == if n < |old(View())| then old(View())[n..] else ""
    {
      var taken := if n < |storage| - readOffset then n else |storage| - readOffset;
      ghost var was := View();
      readOffset := readOffset + taken;
      assert View() == was[taken..];
      CompactIfWorthwhile();
    }

    method CompactIfWorthwhile()
      requires readOffset <= |storage| && |storage| - readOffset <= maxCapacity
      modifies this
      ensures Valid() && View() == old(View())
    {
      if readOffset == |storage| {
        storage, readOffset := "", 0;
      } else if readOffset > 0 && readOffset >= |storage| / 2 {
        storage, readOffset := storage[readOffset..], 0;
      }
    }
  }

  lemma ConcatMore(chunks: seq<string>, c: string)
    ensures Concat(chunks + [c]) == Concat(chunks) + c
  {
    if chunks != [] {
      assert (chunks + [c])[1..] == chunks[1..] + [c];
      ConcatMore(chunks[1..], c);
      assert chunks[0] + (Concat(chunks[1..]) + c) == chunks[0] + Concat(chunks[1..]) + c;
    }
  }

  /** Responses waiting for the socket, one chunk each, bounded in bytes. */
  class OutputQueue {
    var chunks: seq<string>
    var queuedBytes: nat
    const maxBufferedBytes: nat

    ghost predicate Valid()
      reads this
    {
      queuedBytes == |Concat(chunks)| && forall i :: 0 <= i < |chunks| ==> chunks[i] != ""
    }

    constructor (max: nat)
      ensures Valid() && chunks == [] && maxBufferedBytes == max
    {
      chunks, queuedBytes, maxBufferedBytes := [], 0, max;
    }

    /** All of the data, or nothing if the bound would be passed. */
    method Enqueue(data: string) returns (ok: bool)
      requires Valid()
      modifies this
      ensures Valid()
      ensures ok <==> |data| <= maxBufferedBytes - (if |old(Concat(chunks))| < maxBufferedBytes then |old(Concat(chunks))| else maxBufferedBytes)
      ensures Concat(chunks) == if ok then old(Concat(chunks)) + data else old(Concat(chunks))
    {
      if data == "" {
        return true;
      }
      if |data| > maxBufferedBytes - (if queuedBytes < maxBufferedBytes then queuedBytes else maxBufferedBytes) {
        return false;
      }
      ConcatMore(chunks, data);
      chunks := chunks + [data];
      queuedBytes := queuedBytes + |data|;
      ok := true;
    }

    /** Drops n bytes of the first chunk, or all of it. */
    method Consume(n: nat)
      requires Valid()
      modifies this
      ensures Valid()
      ensures old(chunks) != [] && n <= |old(chunks)[0]| ==> Concat(chunks) == old(Concat(chunks))[n..]
      ensures old(chunks) != [] && n == |old(chunks)[0]| ==> chunks == old(chunks)[1..]
    {
      if chunks == [] {
        return;
      }
      var first := chunks[0];
      var taken := if n < |first| then n else |first|;
      ghost var rest := Concat(chunks[1..]);
      assert Concat(chunks) == first + rest;
      queuedBytes := queuedBytes - taken;
      if taken == |first| {
        chunks := chunks[1..];
      } else {
        chunks := [first[taken..]] + chunks[1..];
        assert chunks[1..] == old(chunks)[1..];
      }
    }
  }

  datatype IoStatus = IoOk | WouldBlock | Gone

  /** The socket, for the length of one callback: it takes `room` bytes more, and then blocks or fails. */
  class Socket {
    var wire: string
    var room: nat
    var failing: bool

    constructor ()
      ensures wire == ""
    {
      wire, room, failing := "", 0, false;
    }

    /** write_all: all of it, or as much as the socket takes. */
    method WriteAll(data: string) returns (n: nat, status: IoStatus)
      modifies this`wire, this`room
      ensures n == (if |data| <= old(room) then |data| else old(room)) && room == old(room) - n
      ensures wire == old(wire) + data[..n]
      ensures status == if n == |data| then IoOk else if failing then Gone else WouldBlock
    {
      n := if |data| <= room then |data| else room;
      wire := wire + data[..n];
      room := room - n;
      status := if n == |data| then IoOk else if failing then Gone else WouldBlock;
    }
  }

  // ----- what feed leaves is the end of what it got -----

  predicate EndOf(data: string, rest: string) {
    |rest| <= |data| && data[|data| - |rest|..] == rest
  }

  lemma EndOfEnd(a: string, b: string, c: string)
    requires EndOf(a, b) && EndOf(b, c)
    ensures EndOf(a, c)
  {
    assert b[|b| - |c|..] == a[|a| - |c|..];
  }

  lemma {:induction false} HeadersLeaveEnd(p: Parser, data: string)
    requires p.phase == Headers
    ensures EndOf(data, ParseHeaders(p, data).1)
    decreases |data|, 0
  {
    if SplitCrlf(p.line, data) {
      LineLeavesEnd(p, p.line[..|p.line| - 1], data[1..]);
      EndOfEnd(data, data[1..], ParseHeaders(p, data).1);
    } else if Crlf(data) < |data| && ParseHeaders(p, data).1 != data {
      var rest := data[Crlf(data) + 2..];
      LineLeavesEnd(p, p.line + data[..Crlf(data)], rest);
      EndOfEnd(data, rest, ParseHeaders(p, data).1);
    }
  }

  lemma {:induction false} LineLeavesEnd(p: Parser, line: string, rest: string)
    requires p.phase == Headers
    ensures var (q, r) := ConsumeHeaderLine(p, line); EndOf(rest, AfterHeaderLine(q.(line := ""), rest, r).1)
    decreases |rest|, 1
  {
    var (q, r) := ConsumeHeaderLine(p, line);
    if r == Advanced && q.phase == Headers { HeadersLeaveEnd(q.(line := ""), rest); }
  }

  lemma FeedHeadersLeavesEnd(p: Parser, data: string)
    requires p.phase == Headers
    ensures EndOf(data, FeedHeaders(p, data).1)
  {
    HeadersLeaveEnd(p, data);
    EndOfEnd(data, ParseHeaders(p, data).1, FeedHeaders(p, data).1);
  }

  lemma RequestLineLeavesEnd(p: Parser, data: string)
    requires p.phase == RequestLine
    ensures EndOf(data, ParseRequestLine(p, data).1)
  {
  }

  lemma FromRequestLineLeavesEnd(p: Parser, data: string)
    requires p.phase == RequestLine
    ensures EndOf(data, Feed(p, data).1)
  {
    RequestLineLeavesEnd(p, data);
    var (q, rest, r) := ParseRequestLine(p, data);
    if r == Advanced {
      FeedHeadersLeavesEnd(q, rest);
      EndOfEnd(data, rest, FeedHeaders(q, rest).1);
    }
  }

  lemma FeedLeavesEnd(p: Parser, data: string)
    requires Ok(p)
    ensures EndOf(data, Feed(p, data).1)
  {
    match p.phase
    case Done =>
    case Body =>
    case Headers => FeedHeadersLeavesEnd(p, data);
    case RequestLine => FromRequestLineLeavesEnd(p, data);
  }

  // ----- the connection -----

  class HttpConnection {
    const parser: RequestParser
    const readBuffer: ByteBuffer
    const queue: OutputQueue
    const socket: Socket
    var open: bool
    var state: ConnState
    var requestsServed: nat
    var awaitingWorkerResult: bool
    ghost var got: string
    ghost var asked: seq<Request>
    ghost var said: seq<Response>

    ghost predicate Valid(k: Config)
      reads this, parser, readBuffer, queue, socket
    {
      Ok(parser.Now()) && readBuffer.Valid() && queue.Valid() && queue.maxBufferedBytes == k.maxOut && readBuffer.maxCapacity == k.maxBuf
    }

    /** What ServerProtocol knows of a connection. */
    ghost function Now(): Conn
      requires Ok(parser.Now()) && readBuffer.Valid()
      reads this, parser, readBuffer, queue, socket
    {
      Conn(open, state, parser.Now(), readBuffer.View(), Concat(queue.chunks), requestsServed, awaitingWorkerResult,
           socket.wire, got, asked, said)
    }

    /** What the socket will do with a flush. */
    ghost function Will(): Sent
      reads socket
    {
      Sent(socket.room, socket.failing)
    }

    constructor (k: Config)
      ensures Valid(k) && Now() == ACCEPTED && fresh(parser) && fresh(readBuffer) && fresh(queue) && fresh(socket)
    {
      parser := new RequestParser();
      readBuffer := new ByteBuffer(k.maxBuf);
      queue := new OutputQueue(k.maxOut);
      socket := new Socket();
      open, state, requestsServed, awaitingWorkerResult := true, Reading, 0, false;
      got, asked, said := "", [], [];
    }

    /** flush_output: chunk after chunk, until all are sent or the socket takes no more. */
    method FlushOutput(k: Config) returns (r: FlushResult)
      requires Valid(k)
      modifies queue, socket`wire, socket`room
      ensures Valid(k) && (Now(), r) == Flush(old(Now()), old(Will()))
    {
      ghost var out, room, wire := Concat(queue.chunks), socket.room, socket.wire;
      ghost var k0 := 0;
      while queue.chunks != []
        invariant Valid(k) && k0 <= |out| && k0 + socket.room == room
        invariant socket.wire == wire + out[..k0] && Concat(queue.chunks) == out[k0..]
        decreases |queue.chunks|
      {
        var data := queue.chunks[0];
        ghost var rest := Concat(queue.chunks[1..]);
        assert out[k0..] == data + rest;
        var n, status := socket.WriteAll(data);
        queue.Consume(n);
        assert out[..k0 + n] == out[..k0] + data[..n];
        assert wire + out[..k0 + n] == wire + out[..k0] + data[..n];
        k0 := k0 + n;
        if status == Gone {
          return Broken;
        }
        if status == WouldBlock {
          return Pending;
        }
      }
      assert out[..k0] == out;
      r := Flushed;
    }

    method CloseConnection(k: Config)
      requires Valid(k)
      modifies this`open
      ensures Valid(k) && Now() == Closed(old(Now()))
    {
      open := false;
    }

    /** finish_dispatch. */
    method Finish(k: Config, close: bool) returns (resumable: bool)
      requires Valid(k)
      modifies this`open, this`state, queue, socket`wire, socket`room
      ensures Valid(k) && (Now(), resumable) == FinishDispatch(old(Now()), close, old(Will()))
    {
      var r := FlushOutput(k);
      match r {
        case Broken =>
          CloseConnection(k);
          resumable := false;
        case Flushed =>
          if close { CloseConnection(k); }
          resumable := !close;
        case Pending =>
          state := if close then Closing else Writing;
          resumable := false;
      }
    }

    method EnqueueOutput(k: Config, r: Response) returns (ok: bool)
      requires Valid(k)
      modifies queue, this`said
      ensures Valid(k) && (ok <==> Enqueue(k, old(Now()), r).Some?)
      ensures Now() == if ok then Enqueue(k, old(Now()), r).value else old(Now())
    {
      ok := queue.Enqueue(k.serialize(r));
      if ok { said := said + [r]; }
    }

    /** After the answer to a completed request has been queued: whether to close. */
    method NextRequest(k: Config, keepAlive: bool) returns (close: bool)
      requires Valid(k)
      modifies this`requestsServed, parser
      ensures Valid(k) && Now() == old(Now()).(served := old(requestsServed) + 1, parser := FRESH)
      ensures close <==> !keepAlive || requestsServed >= k.maxServed
    {
      requestsServed := requestsServed + 1;
      parser.Reset();
      close := !keepAlive || requestsServed >= k.maxServed;
    }

    /** A completed request is answered at once: what is left of the view, whether to close, and whether
        to go on. */
    method AnswerInline(k: Config, view: string) returns (rest: string, close: bool, again: bool)
      requires Valid(k)
      modifies this`requestsServed, this`asked, this`said, queue, parser
      ensures Valid(k) && readBuffer.View() == old(readBuffer.View()) && (rest == view || rest == "")
      ensures (Now().(buf := rest), close, again) == InlineOnce(k, old(Now()), (old(parser.Now()), view, Complete))
    {
      rest, close, again := view, false, false;
      var h := k.handler(parser.request);
      var r := h.(keepAlive := h.keepAlive && KeepAlive(parser.request));
      asked := asked + [parser.request];
      var queued := EnqueueOutput(k, r);
      if !queued {
        rest, close := "", true;
        return;
      }
      close := NextRequest(k, r.keepAlive);
      again := !close;
    }

    method AnswerError(k: Config)
      requires Valid(k) && Refused(parser.Now())
      modifies this`said, queue
      ensures Valid(k) && Now().(buf := "") == Refuse(k, old(Now()), old(parser.Now())) && readBuffer.View() == old(readBuffer.View())
    {
      var queued := EnqueueOutput(k, parser.errorResponse.value);
    }

    /** One turn of drive_parser's loop without a pool, after feed. */
    method InlineTurn(k: Config, status: Status, view: string) returns (rest: string, close: bool, again: bool)
      requires Valid(k) && (status == Error ==> Refused(parser.Now()))
      modifies this`requestsServed, this`asked, this`said, queue, parser
      ensures Valid(k)
      ensures (Now().(buf := rest), close, again) == InlineOnce(k, old(Now()), (old(parser.Now()), view, status))
      ensures readBuffer.View() == old(readBuffer.View()) && (rest == view || rest == "")
    {
      if status == Complete {
        rest, close, again := AnswerInline(k, view);
      } else if status == Error {
        AnswerError(k);
        rest, close, again := "", true, false;
      } else {
        rest, close, again := view, false, false;
      }
    }

    /** The view has been used up to `view`; the rest stays in the buffer. */
    method KeepRest(k: Config, view: string)
      requires Valid(k) && EndOf(readBuffer.View(), view)
      modifies readBuffer
      ensures Valid(k) && Now() == old(Now()).(buf := view)
    {
      readBuffer.Consume(|readBuffer.View()| - |view|);
    }

    method FeedView(k: Config, view: string) returns (status: Status, rest: string)
      requires Valid(k) && EndOf(readBuffer.View(), view)
      modifies parser
      ensures Valid(k) && EndOf(readBuffer.View(), rest)
      ensures (parser.Now(), rest, status) == Feed(old(parser.Now()), view)
      ensures Now() == old(Now()).(parser := parser.Now()) && (status == Error ==> Refused(parser.Now()))
    {
      FeedLeavesEnd(parser.Now(), view);
      EndOfEnd(readBuffer.View(), view, Feed(parser.Now(), view).1);
      status, rest := parser.FeedChunk(view);
    }

    /** One turn of drive_parser's loop without a pool. */
    method DriveTurn(k: Config, view: string) returns (rest: string, close: bool, again: bool)
      requires Valid(k) && EndOf(readBuffer.View(), view)
      modifies this`requestsServed, this`asked, this`said, queue, parser
      ensures Valid(k) && readBuffer.View() == old(readBuffer.View()) && EndOf(readBuffer.View(), rest)
      ensures (Now().(buf := rest), close, again) == TurnOf(k, old(Now()).(buf := view))
    {
      ghost var c := Now().(buf := view);
      var status, left := FeedView(k, view);
      SameTurn(k, c, (parser.Now(), left, status), Now());
      rest, close, again := InlineTurn(k, status, left);
    }

    /** drive_parser's loop without a pool. */
    method DriveInline(k: Config) returns (close: bool)
      requires Valid(k)
      modifies this`requestsServed, this`asked, this`said, queue, parser, readBuffer
      ensures Valid(k) && (Now(), close) == Inline(k, old(Now()))
    {
      var view := readBuffer.View();
      ghost var goal := Inline(k, Now());
      var again := true;
      close := false;
      while again
        invariant Valid(k) && EndOf(readBuffer.View(), view)
        invariant if again then Inline(k, Now().(buf := view)) == goal else (Now().(buf := view), close) == goal
        decreases again, |view|, if parser.phase == Done then 1 else 0
      {
        Unfolds(k, Now().(buf := view));
        view, close, again := DriveTurn(k, view);
      }
      KeepRest(k, view);
    }

    /** drive_parser with a pool; a request that the pool takes is the result. */
    method DrivePooled(k: Config, room: bool) returns (job: Option<Request>)
      requires Valid(k)
      modifies this, queue, parser, readBuffer, socket`wire, socket`room
      ensures Valid(k) && (Now(), job) == Pooled(k, old(Now()), Feed(old(Now()).parser, old(Now()).buf), room, old(Will()))
    {
      ghost var c := Now();
      var status, rest := FeedView(k, readBuffer.View());
      SamePooled(k, c, (parser.Now(), rest, status), Now(), room, Will());
      job := AfterFeed(k, status, rest, room);
    }

    method AfterFeed(k: Config, status: Status, rest: string, room: bool) returns (job: Option<Request>)
      requires Valid(k) && EndOf(readBuffer.View(), rest) && (status == Error ==> Refused(parser.Now()))
      modifies this, queue, parser, readBuffer, socket`wire, socket`room
      ensures Valid(k) && (Now(), job) == Pooled(k, old(Now()), (old(parser.Now()), rest, status), room, old(Will()))
    {
      job := None;
      match status {
        case NeedMore =>
          KeepRest(k, rest);
          var go := Finish(k, false);
        case Error =>
          AnswerError(k);
          KeepRest(k, "");
          var go := Finish(k, true);
        case Complete =>
          job := Dispatch(k, rest, room);
      }
    }

    /** A completed request goes to the pool, or, if the pool has no room, is answered with 503. */
    method Dispatch(k: Config, rest: string, room: bool) returns (job: Option<Request>)
      requires Valid(k) && EndOf(readBuffer.View(), rest)
      modifies this, queue, parser, readBuffer, socket`wire, socket`room
      ensures Valid(k) && (Now(), job) == Pooled(k, old(Now()), (old(parser.Now()), rest, Complete), room, old(Will()))
    {
      var request := parser.request;
      asked := asked + [request];
      parser.Reset();
      awaitingWorkerResult := true;
      KeepRest(k, rest);
      if room {
        return Some(request);
      }
      var go := OnWorkerResult(k, BUSY, KeepAlive(request));
      job := None;
    }

    /** on_worker_result, up to finish_dispatch: whether to close. */
    method SettleResult(k: Config, response: Response, keep: bool) returns (closeAfterFlush: bool)
      requires Valid(k)
      modifies this`awaitingWorkerResult, this`requestsServed, this`said, queue
      ensures Valid(k) && (Now(), closeAfterFlush) == Settle(k, old(Now()), response, keep) && Will() == old(Will())
    {
      awaitingWorkerResult := false;
      var r := response.(keepAlive := response.keepAlive && keep);
      closeAfterFlush := true;
      var queued := EnqueueOutput(k, r);
      if queued {
        requestsServed := requestsServed + 1;
        closeAfterFlush := !r.keepAlive || requestsServed >= k.maxServed;
      }
    }

    /** on_worker_result, up to where parsing may go on. */
    method OnWorkerResult(k: Config, response: Response, keep: bool) returns (resumable: bool)
      requires Valid(k)
      modifies this, queue, socket`wire, socket`room
      ensures Valid(k) && (Now(), resumable) == OnResult(k, old(Now()), response, keep, old(Will()))
    {
      var closeAfterFlush := SettleResult(k, response, keep);
      resumable := Finish(k, closeAfterFlush);
    }

    /** drive_parser. */
    method DriveParser(k: Config, room: bool) returns (job: Option<Request>)
      requires Valid(k)
      modifies this, queue, parser, readBuffer, socket`wire, socket`room
      ensures Valid(k) && (Now(), job) == Drive(k, old(Now()), room, old(Will()))
    {
      if k.pooled {
        job := DrivePooled(k, room);
      } else {
        var close := DriveInline(k);
        var go := Finish(k, close);
        job := None;
      }
    }

    /** process_readable, for what has come. */
    method ProcessReadable(k: Config, data: string, gone: bool, room: bool) returns (job: Option<Request>)
      requires Valid(k)
      modifies this, queue, parser, readBuffer, socket`wire, socket`room
      ensures Valid(k) && (Now(), job) == OnReadable(k, old(Now()), data, gone, room, old(Will()))
    {
      job := None;
      var ok := readBuffer.Append(data);
      if !ok {
        CloseConnection(k);
        return;
      }
      got := got + data;
      if gone {
        CloseConnection(k);
      } else if !awaitingWorkerResult {
        job := DriveParser(k, room);
      }
    }

    /** on_client_event for a socket that can be written to. */
    method OnClientWritable(k: Config)
      requires Valid(k)
      modifies this, queue, socket`wire, socket`room
      ensures Valid(k) && Now() == OnWritable(old(Now()), old(Will()))
    {
      var r := FlushOutput(k);
      if r == Broken || (r == Flushed && state == Closing) {
        CloseConnection(k);
      } else if r == Flushed {
        state := Reading;
      }
    }
  }

  /** One turn of drive_parser's loop without a pool. */
  function TurnOf(k: Config, c: Conn): (Conn, bool, bool) {
    InlineOnce(k, c, Feed(c.parser, c.buf))
  }

  lemma Unfolds(k: Config, c: Conn)
    ensures var (d, close, again) := TurnOf(k, c);
            && Inline(k, c) == (if again then Inline(k, d) else (d, close))
            && (again ==> |d.buf| < |c.buf| || (c.parser.phase == Done && d.parser.phase != Done && |d.buf| <= |c.buf|))
  {
  }

  lemma SameRefuse(k: Config, c: Conn, q: Parser, d: Conn)
    requires Ok(q) && Refused(q) && d == c.(parser := d.parser, buf := d.buf)
    ensures Refuse(k, c, q) == Refuse(k, d, q)
  {
    assert c.(parser := q, buf := "") == d.(parser := q, buf := "");
  }

  lemma SameAnswer(k: Config, c: Conn, f: (Parser, string, Status), d: Conn)
    requires f.2 == Complete && Ok(f.0) && d == c.(parser := d.parser, buf := d.buf)
    ensures InlineOnce(k, c, f) == InlineOnce(k, d, f)
  {
    assert c.(parser := FRESH, buf := f.1, asked := c.asked + [f.0.request]) == d.(parser := FRESH, buf := f.1, asked := d.asked + [f.0.request]);
  }

  lemma SameOnce(k: Config, c: Conn, f: (Parser, string, Status), d: Conn)
    requires Ok(f.0) && (f.2 == Error ==> Refused(f.0)) && d == c.(parser := d.parser, buf := d.buf)
    ensures InlineOnce(k, c, f) == InlineOnce(k, d, f)
  {
    match f.2
    case NeedMore =>
    case Error => SameRefuse(k, c, f.0, d);
    case Complete => SameAnswer(k, c, f, d);
  }

  /** A turn looks at the parser and the view only through what feed has made of them. */
  lemma SameTurn(k: Config, c: Conn, f: (Parser, string, Status), d: Conn)
    requires f == Feed(c.parser, c.buf) && d == c.(parser := d.parser, buf := d.buf)
    ensures TurnOf(k, c) == InlineOnce(k, d, f)
  {
    SameOnce(k, c, f, d);
  }

  lemma SamePooled(k: Config, c: Conn, f: (Parser, string, Status), d: Conn, room: bool, e: Sent)
    requires Ok(f.0) && (f.2 == Error ==> Refused(f.0)) && d == c.(parser := d.parser, buf := d.buf)
    ensures Pooled(k, c, f, room, e) == Pooled(k, d, f, room, e)
  {
    match f.2
    case NeedMore => assert c.(parser := f.0, buf := f.1) == d.(parser := f.0, buf := f.1);
    case Error => SameRefuse(k, c, f.0, d);
    case Complete =>
      assert c.(parser := FRESH, buf := f.1, awaiting := true, asked := c.asked + [f.0.request])
          == d.(parser := FRESH, buf := f.1, awaiting := true, asked := d.asked + [f.0.request]);
  }
}
