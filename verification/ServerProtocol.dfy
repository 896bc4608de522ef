/** The non-blocking HTTP server: connections driven by the reactor thread, and a pool of worker threads
    that computes responses. What is said here of a connection is what each callback does to it; what is
    said of the server is every interleaving of callbacks with workers.
    (projects/05-arcserve/src/server/nonblocking_http_server.cpp, src/reactor/connection.cpp,
    src/reactor/output_queue.cpp, src/concurrency/bounded_work_queue.cpp, worker_pool.cpp) */
module ServerProtocol {
  import opened HttpParser
  import opened HttpSession

  type LiveParser = p: Parser | Ok(p) witness FRESH

  datatype ConnState = Reading | Writing | Closing

  /** `buf` is what has been read and not parsed, `out` what is queued for the socket. The last four are
      history: what went over the wire, what came, the requests parsed and the responses queued. */
  datatype Conn = Conn(open: bool, state: ConnState, parser: LiveParser, buf: string, out: string, served: nat, awaiting: bool,
                       wire: string, got: string, asked: seq<Request>, said: seq<Response>)

  const ACCEPTED := Conn(true, Reading, FRESH, "", "", 0, false, "", "", [], [])

  datatype Config = Config(pooled: bool, maxServed: nat, maxOut: nat, maxBuf: nat, queueCap: nat, doneCap: nat, handler: Request -> Response, serialize: Response -> string)

  // ----- messages -----

  /** All responses, one after the other. */
  function Text(k: Config, said: seq<Response>): string {
    if said == [] then "" else Text(k, said[..|said| - 1]) + k.serialize(said[|said| - 1])
  }

  predicate KeepAlive(q: Request) {
    var h := FindHeader(q.headers, "Connection");
    h.Some? ==> !SameIgnoringCase(h.value, "close")
  }

  const BUSY := Response(503, "Service Unavailable", [Header("Content-Type", "text/plain")], "worker queue is full\n", false)

  /** What a request may be answered with: what the handler says, or, from a pool, that it is busy. */
  predicate Answers(k: Config, q: Request, r: Response) {
    var h := k.handler(q);
    r == h.(keepAlive := h.keepAlive && KeepAlive(q)) || (k.pooled && r == BUSY)
  }

  // ----- output -----

  /** OutputQueue::enqueue: all of a response, or nothing if the bound would be passed. */
  function Enqueue(k: Config, c: Conn, r: Response): Option<Conn> {
    var data := k.serialize(r);
    if |data| > k.maxOut - (if |c.out| < k.maxOut then |c.out| else k.maxOut) then None
    else Some(c.(out := c.out + data, said := c.said + [r]))
  }

  /** What the socket does with a flush: it takes at most `n` bytes, and if that is not all, the
      connection has failed or the rest waits. */
  datatype Sent = Sent(n: nat, failed: bool)

  datatype FlushResult = Flushed | Pending | Broken

  function Flush(c: Conn, e: Sent): (Conn, FlushResult) {
    if e.n >= |c.out| then (c.(wire := c.wire + c.out, out := ""), Flushed)
    else (c.(wire := c.wire + c.out[..e.n], out := c.out[e.n..]), if e.failed then Broken else Pending)
  }

  function Closed(c: Conn): Conn {
    c.(open := false)
  }

  /** finish_dispatch: whether parsing may go on, too. */
  function FinishDispatch(c: Conn, close: bool, e: Sent): (Conn, bool) {
    var (d, r) := Flush(c, e);
    match r
    case Broken => (Closed(d), false)
    case Flushed => if close then (Closed(d), false) else (d, true)
    case Pending => (d.(state := if close then Closing else Writing), false)
  }

  // ----- driving the parser -----

  /** Parser errors: the error response, if there is room for it, and no more input. */
  function Refuse(k: Config, c: Conn, q: Parser): Conn
    requires Ok(q) && Refused(q)
  {
    var d := c.(parser := q, buf := "");
    match Enqueue(k, d, q.error.value) case Some(u) => u case None => d
  }

  /** One turn of drive_parser's loop without a pool, after feed has said `f`: whether to close, and
      whether to go on. What is left of the input is in `buf`. */
  function InlineOnce(k: Config, c: Conn, f: (Parser, string, Status)): (r: (Conn, bool, bool))
    requires Ok(f.0) && (f.2 == Error ==> Refused(f.0))
    ensures r.2 ==> f.2 == Complete && r.0.buf == f.1 && r.0.parser == FRESH
  {
    var (q, rest, s) := f;
    match s
    case NeedMore => (c.(parser := q, buf := rest), false, false)
    case Error => (Refuse(k, c, q), true, false)
    case Complete =>
      var h := k.handler(q.request);
      var r := h.(keepAlive := h.keepAlive && KeepAlive(q.request));
      var d := c.(parser := FRESH, buf := rest, asked := c.asked + [q.request]);
      match Enqueue(k, d, r)
      case None => (d.(parser := q, buf := ""), true, false)
      case Some(e) =>
        var u := e.(served := e.served + 1);
        if !r.keepAlive || u.served >= k.maxServed then (u, true, false) else (u, false, true)
  }

  /** drive_parser's loop without a pool. */
  function Inline(k: Config, c: Conn): (Conn, bool)
    decreases |c.buf|, if c.parser.phase == Done then 1 else 0
  {
    var (d, close, again) := InlineOnce(k, c, Feed(c.parser, c.buf));
    if again then Inline(k, d) else (d, close)
  }

  /** on_worker_result, up to finish_dispatch. */
  function Settle(k: Config, c: Conn, resp: Response, keep: bool): (Conn, bool) {
    var r := resp.(keepAlive := resp.keepAlive && keep);
    var d := c.(awaiting := false);
    match Enqueue(k, d, r)
    case None => (d, true)
    case Some(u) => (u.(served := u.served + 1), !r.keepAlive || u.served + 1 >= k.maxServed)
  }

  /** on_worker_result, up to where parsing may go on. */
  function OnResult(k: Config, c: Conn, resp: Response, keep: bool, e: Sent): (Conn, bool) {
    var (d, close) := Settle(k, c, resp, keep);
    FinishDispatch(d, close, e)
  }

  /** drive_parser with a pool, which takes a request if `room` says so, after feed has said `f`. */
  function Pooled(k: Config, c: Conn, f: (Parser, string, Status), room: bool, e: Sent): (Conn, Option<Request>)
    requires Ok(f.0) && (f.2 == Error ==> Refused(f.0))
  {
    var (q, rest, s) := f;
    match s
    case NeedMore => (FinishDispatch(c.(parser := q, buf := rest), false, e).0, None)
    case Error => (FinishDispatch(Refuse(k, c, q), true, e).0, None)
    case Complete =>
      var d := c.(parser := FRESH, buf := rest, awaiting := true, asked := c.asked + [q.request]);
      if room then (d, Some(q.request)) else (OnResult(k, d, BUSY, KeepAlive(q.request), e).0, None)
  }

  /** drive_parser. */
  function Drive(k: Config, c: Conn, room: bool, e: Sent): (Conn, Option<Request>) {
    if k.pooled then Pooled(k, c, Feed(c.parser, c.buf), room, e)
    else
      var (d, close) := Inline(k, c);
      (FinishDispatch(d, close, e).0, None)
  }

  /** process_readable: `data` has come, and if `gone` the peer closed or the socket failed after it. */
  function OnReadable(k: Config, c: Conn, data: string, gone: bool, room: bool, e: Sent): (Conn, Option<Request>) {
    if |c.buf| + |data| > k.maxBuf then (Closed(c), None)
    else
      var d := c.(buf := c.buf + data, got := c.got + data);
      if gone then (Closed(d), None) else if d.awaiting then (d, None) else Drive(k, d, room, e)
  }

  /** on_client_event for a socket that can be written to. */
  function OnWritable(c: Conn, e: Sent): Conn {
    var (d, r) := Flush(c, e);
    match r
    case Broken => Closed(d)
    case Flushed => if d.state == Closing then Closed(d) else d.(state := Reading)
    case Pending => d
  }

  // ----- one connection -----

  /** The bytes of `got` in front of `buf` have given exactly the requests `asked`. */
  ghost predicate Parsed(got: string, buf: string, p: Parser, asked: seq<Request>) {
    && Open(p)
    && (SessionBelow(FRESH, got) ==>
          && |buf| <= |got| && buf == got[|got| - |buf|..]
          && RunBytes(FRESH, got[..|got| - |buf|]) == Trace(asked, None, p, |got| - |buf|))
  }

  /** The requests are the first ones of the byte stream; a response beyond them is that to its error. */
  ghost predicate Faithful(got: string, asked: seq<Request>, said: seq<Response>) {
    SessionBelow(FRESH, got) ==>
      var t := RunBytes(FRESH, got);
      && asked <= t.requests
      && (|said| > |asked| ==> asked == t.requests && t.error == Some(said[|said| - 1]))
  }

  predicate SaidClose(said: seq<Response>) {
    said != [] && !said[|said| - 1].keepAlive
  }

  /** Everything said so far answers what was asked, in order. */
  predicate InOrder(k: Config, c: Conn) {
    && |c.said| <= |c.asked| + 1
    && (forall i :: 0 <= i < |c.said| && i < |c.asked| ==> Answers(k, c.asked[i], c.said[i]))
    && (forall i :: 0 <= i < |c.said| - 1 ==> c.said[i].keepAlive)
  }

  ghost predicate ConnOk(k: Config, c: Conn) {
    && c.wire + c.out == Text(k, c.said) && InOrder(k, c) && Faithful(c.got, c.asked, c.said)
    && (c.open && c.state != Closing ==> Parsed(c.got, c.buf, c.parser, c.asked) && !SaidClose(c.said) && |c.asked| == |c.said| + (if c.awaiting then 1 else 0))
    && (c.open ==> (c.state == Reading <==> c.out == "") && (c.state != Reading ==> !c.awaiting) && (!k.pooled ==> !c.awaiting))
  }

  // ----- parsing keeps track -----

  /** The bytes up to the end of a request. */
  lemma {:induction false} UpToRequest(p: Parser, data: string)
    requires Open(p) && FeedBytes(p, data).2 == Complete
    ensures var (q, rest, _) := FeedBytes(p, data);
            var n := |data| - |rest|;
            n > 0 && data[n..] == rest && RunBytes(p, data[..n]) == Trace([q.request], None, FRESH, n)
    decreases |data|
  {
    var (q, s) := Byte(p, data[0]);
    if s == NeedMore {
      UpToRequest(q, data[1..]);
      var n := |data| - |FeedBytes(p, data).1|;
      assert data[..n][1..] == data[1..][..n - 1];
    } else {
      assert data[..1][1..] == "";
    }
  }

  lemma FeedStep(p: Parser, data: string)
    requires Open(p) && SessionBelow(p, data)
    ensures var (q, rest, s) := Feed(p, data);
            var n := |data| - |rest|;
            && data[n..] == rest
            && (s == NeedMore ==> Open(q) && rest == "" && RunBytes(p, data) == Trace([], None, q, |data|))
            && (s == Complete ==> RunBytes(p, data[..n]) == Trace([q.request], None, FRESH, n))
            && (s == Error ==> RunBytes(p, data).requests == [] && RunBytes(p, data).error == q.error)
  {
    BelowByRequest(p, data);
    FeedIsBytes(p, data);
    BytesByRequest(p, data);
    SuffixLeft(p, data);
    var (q, rest, s) := FeedBytes(p, data);
    if s == Complete { UpToRequest(p, data); }
    if s == NeedMore { AllUsed(p, data); }
  }

  lemma {:induction false} SuffixLeft(p: Parser, data: string)
    requires Ok(p)
    ensures data[|data| - |FeedBytes(p, data).1|..] == FeedBytes(p, data).1
    decreases |data|
  {
    if p.phase != Done && data != "" {
      var (q, s) := Byte(p, data[0]);
      if s == NeedMore { SuffixLeft(q, data[1..]); }
    }
  }

  lemma AheadOf(got: string, used: string, buf: string, p: Parser, asked: seq<Request>, n: nat)
    requires got == used + buf && SessionBelow(FRESH, got) && RunBytes(FRESH, used) == Trace(asked, None, p, n)
    ensures Open(p) && SessionBelow(p, buf)
    ensures RunBytes(FRESH, got) == Then(Trace(asked, None, p, n), RunBytes(p, buf))
  {
    HttpSession.BytesConcat(FRESH, used, buf);
  }

  /** What is left of the stream, seen from where parsing stands. */
  lemma Ahead(got: string, buf: string, p: Parser, asked: seq<Request>)
    requires Parsed(got, buf, p, asked) && SessionBelow(FRESH, got)
    ensures SessionBelow(p, buf)
    ensures RunBytes(FRESH, got) == Then(Trace(asked, None, p, |got| - |buf|), RunBytes(p, buf))
  {
    var n := |got| - |buf|;
    assert got == got[..n] + buf;
    AheadOf(got, got[..n], buf, p, asked, n);
  }

  lemma AskedIsPrefix(got: string, buf: string, p: Parser, asked: seq<Request>, said: seq<Response>)
    requires Parsed(got, buf, p, asked) && |said| <= |asked|
    ensures Faithful(got, asked, said)
  {
    if SessionBelow(FRESH, got) {
      Ahead(got, buf, p, asked);
      PrefixIsFaithful(got, asked, said, Trace(asked, None, p, |got| - |buf|), RunBytes(p, buf));
    }
  }

  lemma PrefixIsFaithful(got: string, asked: seq<Request>, said: seq<Response>, t: Trace, u: Trace)
    requires RunBytes(FRESH, got) == Then(t, u) && t.requests == asked && |said| <= |asked|
    ensures Faithful(got, asked, said)
  {
  }

  lemma RunsOn(a: string, b: string, p: Parser, asked: seq<Request>, n: nat, u: Trace)
    requires Open(p) && RunBytes(FRESH, a) == Trace(asked, None, p, n) && u == RunBytes(p, b) && u.error == None
    ensures RunBytes(FRESH, a + b) == Trace(asked + u.requests, None, u.p, n + u.used)
  {
    HttpSession.BytesConcat(FRESH, a, b);
  }

  /** The parser has taken m more bytes. */
  lemma Moves(got: string, buf: string, p: Parser, asked: seq<Request>, m: nat, u: Trace)
    requires Parsed(got, buf, p, asked) && SessionBelow(FRESH, got) && m <= |buf|
    requires u == RunBytes(p, buf[..m]) && u.error == None && u.used == m
    ensures var n := |got| - |buf|;
            got[n + m..] == buf[m..] && RunBytes(FRESH, got[..n + m]) == Trace(asked + u.requests, None, u.p, n + m)
  {
    var n := |got| - |buf|;
    RunsOn(got[..n], buf[..m], p, asked, n, u);
    assert got[..n + m] == got[..n] + buf[..m];
  }

  /** What is known after one feed, and, once a request is complete, a reset. */
  ghost predicate Heard(c: Conn, f: (Parser, string, Status)) {
    var (q, rest, s) := f;
    && (s == NeedMore ==> Parsed(c.got, rest, q, c.asked))
    && (s == Complete ==> Parsed(c.got, rest, FRESH, c.asked + [q.request]))
    && Ok(q) && (s == Error ==> Refused(q) && Faithful(c.got, c.asked, c.said + [q.error.value]))
  }

  lemma Fed(c: Conn)
    requires Parsed(c.got, c.buf, c.parser, c.asked) && |c.said| == |c.asked|
    ensures Heard(c, Feed(c.parser, c.buf))
  {
    if SessionBelow(FRESH, c.got) {
      Ahead(c.got, c.buf, c.parser, c.asked);
      FeedStep(c.parser, c.buf);
      HeardStep(c, Feed(c.parser, c.buf));
    }
  }

  lemma HeardStep(c: Conn, f: (Parser, string, Status))
    requires Parsed(c.got, c.buf, c.parser, c.asked) && |c.said| == |c.asked| && SessionBelow(FRESH, c.got) && |f.1| <= |c.buf| && Ok(f.0)
    requires RunBytes(FRESH, c.got) == Then(Trace(c.asked, None, c.parser, |c.got| - |c.buf|), RunBytes(c.parser, c.buf))
    requires var n := |c.buf| - |f.1|;
             && c.buf[n..] == f.1
             && (f.2 == NeedMore ==> Open(f.0) && f.1 == "" && RunBytes(c.parser, c.buf) == Trace([], None, f.0, |c.buf|))
             && (f.2 == Complete ==> RunBytes(c.parser, c.buf[..n]) == Trace([f.0.request], None, FRESH, n))
             && (f.2 == Error ==> Refused(f.0) && RunBytes(c.parser, c.buf).requests == [] && RunBytes(c.parser, c.buf).error == f.0.error)
    ensures Heard(c, f)
  {
    var m := |c.buf| - |f.1|;
    match f.2
    case NeedMore =>
      assert c.buf[..m] == c.buf;
      TakenIn(c.got, c.buf, c.parser, c.asked, m, Trace([], None, f.0, m));
      assert c.asked + [] == c.asked;
    case Complete => TakenIn(c.got, c.buf, c.parser, c.asked, m, Trace([f.0.request], None, FRESH, m));
    case Error => ErrorHeard(c.got, c.asked, c.said, f.0.error.value, Trace(c.asked, None, c.parser, |c.got| - |c.buf|), RunBytes(c.parser, c.buf));
  }

  lemma TakenIn(got: string, buf: string, p: Parser, asked: seq<Request>, m: nat, u: Trace)
    requires Parsed(got, buf, p, asked) && SessionBelow(FRESH, got) && m <= |buf| && Open(u.p)
    requires u == RunBytes(p, buf[..m]) && u.error == None && u.used == m
    ensures Parsed(got, buf[m..], u.p, asked + u.requests)
  {
    Moves(got, buf, p, asked, m, u);
  }

  lemma ErrorHeard(got: string, asked: seq<Request>, said: seq<Response>, r: Response, t: Trace, u: Trace)
    requires RunBytes(FRESH, got) == Then(t, u) && t.error == None && t.requests == asked && u.requests == [] && u.error == Some(r)
    requires |said| == |asked|
    ensures Faithful(got, asked, said + [r])
  {
    assert asked + [] == asked;
  }

  /** More bytes have come. */
  lemma Received(c: Conn, data: string)
    requires Parsed(c.got, c.buf, c.parser, c.asked) && |c.said| <= |c.asked|
    ensures Parsed(c.got + data, c.buf + data, c.parser, c.asked) && Faithful(c.got + data, c.asked, c.said)
  {
    var got := c.got + data;
    if SessionBelow(FRESH, got) {
      HttpSession.BytesConcat(FRESH, c.got, data);
      var n := |c.got| - |c.buf|;
      assert got[..n] == c.got[..n] && got[n..] == c.got[n..] + data;
    }
    AskedIsPrefix(got, c.buf + data, c.parser, c.asked, c.said);
  }

  lemma OneMore(k: Config, said: seq<Response>, r: Response)
    ensures Text(k, said + [r]) == Text(k, said) + k.serialize(r)
  {
    assert (said + [r])[..|said|] == said;
  }

  // ----- callbacks keep a connection sound -----

  /** Between taking input and flushing: `close` is what finish_dispatch is about to be told. */
  ghost predicate Ready(k: Config, c: Conn, close: bool) {
    && c.open && c.state == Reading && !c.awaiting
    && c.wire + c.out == Text(k, c.said) && InOrder(k, c) && Faithful(c.got, c.asked, c.said)
    && (!close ==> Parsed(c.got, c.buf, c.parser, c.asked) && !SaidClose(c.said) && |c.asked| == |c.said|)
  }

  lemma FinishKeeps(k: Config, c: Conn, close: bool, e: Sent)
    requires Ready(k, c, close)
    ensures ConnOk(k, FinishDispatch(c, close, e).0)
    ensures FinishDispatch(c, close, e).1 ==> Ready(k, FinishDispatch(c, close, e).0, false)
    ensures !FinishDispatch(c, close, e).0.awaiting
  {
    var d := Flush(c, e).0;
    assert d.wire + d.out == c.wire + c.out;
  }

  /** A response has been queued, or there was no room for it. */
  lemma EnqueueKeeps(k: Config, c: Conn, r: Response)
    requires c.wire + c.out == Text(k, c.said) && Enqueue(k, c, r).Some?
    ensures var d := Enqueue(k, c, r).value; d == c.(out := d.out, said := c.said + [r]) && d.wire + d.out == Text(k, d.said)
  {
    OneMore(k, c.said, r);
    assert c.wire + (c.out + k.serialize(r)) == c.wire + c.out + k.serialize(r);
  }

  lemma RefuseKeeps(k: Config, c: Conn, f: (Parser, string, Status))
    requires Ready(k, c, false) && f.2 == Error && Heard(c, f)
    ensures Ready(k, Refuse(k, c, f.0), true)
  {
    var d := c.(parser := f.0, buf := "");
    if Enqueue(k, d, f.0.error.value).Some? { EnqueueKeeps(k, d, f.0.error.value); }
  }

  /** One more response, to the request parsed last. */
  lemma AnswerKeeps(k: Config, c: Conn, r: Response)
    requires c.open && c.state == Reading && !c.awaiting && c.wire + c.out == Text(k, c.said) && InOrder(k, c) && !SaidClose(c.said)
    requires Parsed(c.got, c.buf, c.parser, c.asked) && |c.asked| == |c.said| + 1 && Answers(k, c.asked[|c.said|], r)
    ensures Ready(k, c, true)
    ensures Enqueue(k, c, r).Some? ==> Ready(k, Enqueue(k, c, r).value, !r.keepAlive)
  {
    AskedIsPrefix(c.got, c.buf, c.parser, c.asked, c.said);
    if Enqueue(k, c, r).Some? {
      EnqueueKeeps(k, c, r);
      AskedIsPrefix(c.got, c.buf, c.parser, c.asked, c.said + [r]);
    }
  }

  lemma InlineOnceKeeps(k: Config, c: Conn, f: (Parser, string, Status))
    requires Ready(k, c, false) && Heard(c, f)
    ensures var (d, close, again) := InlineOnce(k, c, f); Ready(k, d, close) && (again ==> !close)
  {
    match f.2
    case NeedMore =>
    case Error => RefuseKeeps(k, c, f);
    case Complete => InlineAnswerKeeps(k, c, f);
  }

  lemma InlineAnswerKeeps(k: Config, c: Conn, f: (Parser, string, Status))
    requires Ready(k, c, false) && f.2 == Complete && Heard(c, f)
    ensures var (d, close, again) := InlineOnce(k, c, f); Ready(k, d, close) && (again ==> !close)
  {
    var h := k.handler(f.0.request);
    var r := h.(keepAlive := h.keepAlive && KeepAlive(f.0.request));
    var d := c.(parser := FRESH, buf := f.1, asked := c.asked + [f.0.request]);
    AnswerKeeps(k, d, r);
  }

  lemma {:induction false} InlineKeeps(k: Config, c: Conn)
    requires Ready(k, c, false)
    ensures Ready(k, Inline(k, c).0, Inline(k, c).1)
    decreases |c.buf|
  {
    Fed(c);
    var f := Feed(c.parser, c.buf);
    InlineOnceKeeps(k, c, f);
    if InlineOnce(k, c, f).2 { InlineKeeps(k, InlineOnce(k, c, f).0); }
  }

  /** A connection waits for the answer to the request it parsed last. */
  ghost predicate Waits(k: Config, c: Conn) {
    ConnOk(k, c) && c.open && c.awaiting
  }

  lemma OnResultKeeps(k: Config, c: Conn, resp: Response, keep: bool, e: Sent)
    requires Waits(k, c) && Fits(k, c, resp, keep)
    ensures ConnOk(k, OnResult(k, c, resp, keep, e).0) && !OnResult(k, c, resp, keep, e).0.awaiting
    ensures OnResult(k, c, resp, keep, e).1 ==> Ready(k, OnResult(k, c, resp, keep, e).0, false)
  {
    SettleKeeps(k, c, resp, keep);
    var (d, close) := Settle(k, c, resp, keep);
    FinishKeeps(k, d, close, e);
  }

  lemma SettleKeeps(k: Config, c: Conn, resp: Response, keep: bool)
    requires Waits(k, c) && Fits(k, c, resp, keep)
    ensures Ready(k, Settle(k, c, resp, keep).0, Settle(k, c, resp, keep).1)
  {
    AnswerKeeps(k, c.(awaiting := false), resp.(keepAlive := resp.keepAlive && keep));
  }

  /** A worker's response to the request that a connection waits for. */
  predicate Fits(k: Config, c: Conn, resp: Response, keep: bool) {
    && |c.asked| > 0
    && var q := c.asked[|c.asked| - 1]; keep == KeepAlive(q) && (resp == k.handler(q) || (k.pooled && resp == BUSY))
  }

  lemma PooledKeeps(k: Config, c: Conn, f: (Parser, string, Status), room: bool, e: Sent)
    requires Ready(k, c, false) && k.pooled && c.out == "" && Heard(c, f)
    ensures var (d, job) := Pooled(k, c, f, room, e);
            ConnOk(k, d) && (d.awaiting <==> job.Some?) && (job.Some? ==> d.open && d.asked[|d.asked| - 1] == job.value)
  {
    var (q, rest, s) := f;
    match s
    case NeedMore => FinishKeeps(k, c.(parser := q, buf := rest), false, e);
    case Error =>
      RefuseKeeps(k, c, f);
      FinishKeeps(k, Refuse(k, c, q), true, e);
    case Complete =>
      var d := c.(parser := FRESH, buf := rest, awaiting := true, asked := c.asked + [q.request]);
      AskedIsPrefix(d.got, d.buf, d.parser, d.asked, d.said);
      assert Waits(k, d);
      if !room { OnResultKeeps(k, d, BUSY, KeepAlive(q.request), e); }
  }

  lemma DriveKeeps(k: Config, c: Conn, room: bool, e: Sent)
    requires Ready(k, c, false) && c.out == ""
    ensures var (d, job) := Drive(k, c, room, e);
            ConnOk(k, d) && (d.awaiting <==> job.Some?) && (job.Some? ==> d.open && d.asked[|d.asked| - 1] == job.value && k.pooled)
  {
    Fed(c);
    if k.pooled { PooledKeeps(k, c, Feed(c.parser, c.buf), room, e); }
    else {
      InlineKeeps(k, c);
      FinishKeeps(k, Inline(k, c).0, Inline(k, c).1, e);
    }
  }

  lemma OnReadableKeeps(k: Config, c: Conn, data: string, gone: bool, room: bool, e: Sent)
    requires ConnOk(k, c) && c.open && c.state == Reading
    ensures var (d, job) := OnReadable(k, c, data, gone, room, e);
            && ConnOk(k, d) && (job.Some? ==> !c.awaiting && d.awaiting && d.open && d.asked[|d.asked| - 1] == job.value && k.pooled)
            && (job == None ==> d.awaiting == c.awaiting)
            && (c.awaiting ==> d.said == c.said && d.asked == c.asked)
  {
    Received(c, data);
    var d := c.(buf := c.buf + data, got := c.got + data);
    if |c.buf| + |data| <= k.maxBuf && !gone && !d.awaiting { DriveKeeps(k, d, room, e); }
  }

  lemma OnWritableKeeps(k: Config, c: Conn, e: Sent)
    requires ConnOk(k, c) && c.open && c.state != Reading
    ensures ConnOk(k, OnWritable(c, e)) && OnWritable(c, e).awaiting == c.awaiting
    ensures c.state == Closing ==> !OnWritable(c, e).open || OnWritable(c, e).state == Closing
  {
    var d := Flush(c, e).0;
    assert d.wire + d.out == c.wire + c.out;
  }

  /** What the peer receives: a prefix of the responses to the requests it sent, in their order, each what
      the handler makes of its request; only the last may say that the connection closes. */
  lemma WireIsAnswers(k: Config, c: Conn)
    requires ConnOk(k, c) && SessionBelow(FRESH, c.got)
    ensures c.wire <= Text(k, c.said)
    ensures var asked := RunBytes(FRESH, c.got).requests;
            && (forall i :: 0 <= i < |c.said| && i < |c.asked| ==> i < |asked| && Answers(k, asked[i], c.said[i]))
            && (|c.said| > |c.asked| ==> |c.said| == |asked| + 1 && RunBytes(FRESH, c.got).error == Some(c.said[|asked|]))
    ensures forall i :: 0 <= i < |c.said| - 1 ==> c.said[i].keepAlive
  {
  }
}
