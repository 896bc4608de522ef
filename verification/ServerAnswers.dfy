/** What a connection owes its peer: which responses to the byte stream it has received, and whether it stays
    open. Every callback is held to that, whatever the socket takes and however little the output queue holds.
    (projects/05-arcserve/src/server/nonblocking_http_server.cpp) */
module ServerAnswers {
  import opened HttpParser
  import opened HttpSession
  import opened ServerProtocol
  import ServerRuns

  // ----- what is owed -----

  /** The response to a request. */
  function ReplyTo(k: Config, q: Request): Response {
    var h := k.handler(q);
    h.(keepAlive := h.keepAlive && KeepAlive(q))
  }

  /** The responses to a stream of requests that ends with an error, or not: one for each up to the first that
      ends the connection, and that to the error behind the last; none from the first on for which the output
      queue has no space. */
  function Owed(k: Config, served: nat, space: nat, qs: seq<Request>, error: Option<Response>): seq<Response>
    decreases |qs|
  {
    if qs == [] then
      if error.Some? && |k.serialize(error.value)| <= space then [error.value] else []
    else
      var r := ReplyTo(k, qs[0]);
      var n := |k.serialize(r)|;
      if n > space then []
      else [r] + (if r.keepAlive && served + 1 < k.maxServed then Owed(k, served + 1, space - n, qs[1..], error) else [])
  }

  /** The connection is to stay open: no error, no response that closes it, none too many, none without space. */
  predicate Stays(k: Config, served: nat, space: nat, qs: seq<Request>, error: Option<Response>)
    decreases |qs|
  {
    if qs == [] then error == None
    else
      var r := ReplyTo(k, qs[0]);
      var n := |k.serialize(r)|;
      n <= space && r.keepAlive && served + 1 < k.maxServed && Stays(k, served + 1, space - n, qs[1..], error)
  }

  function Replies(k: Config, qs: seq<Request>): seq<Response> {
    if qs == [] then [] else [ReplyTo(k, qs[0])] + Replies(k, qs[1..])
  }

  lemma {:induction false} TextJoin(k: Config, a: seq<Response>, b: seq<Response>)
    ensures Text(k, a + b) == Text(k, a) + Text(k, b)
    decreases |b|
  {
    if b == [] {
      assert a + b == a && Text(k, a) + "" == Text(k, a);
    } else {
      var n := |b| - 1;
      TextJoin(k, a, b[..n]);
      assert (a + b)[..|a + b| - 1] == a + b[..n];
      assert Text(k, a) + Text(k, b[..n]) + k.serialize(b[n]) == Text(k, a) + (Text(k, b[..n]) + k.serialize(b[n]));
    }
  }

  lemma TextOfOne(k: Config, r: Response)
    ensures Text(k, [r]) == k.serialize(r)
  {
    assert [r][..0] == [] && "" + k.serialize(r) == k.serialize(r);
  }

  lemma TextFirst(k: Config, r: Response, b: seq<Response>)
    ensures Text(k, [r] + b) == k.serialize(r) + Text(k, b)
  {
    TextJoin(k, [r], b);
    TextOfOne(k, r);
  }

  /** It stays open exactly if there is no error, every response keeps it alive, fewer than the permitted
      number have been served, and all of them fit; and then every request has its response. */
  lemma {:induction false} StaysIff(k: Config, served: nat, space: nat, qs: seq<Request>, error: Option<Response>)
    ensures Stays(k, served, space, qs, error) <==>
              && error == None && (forall i :: 0 <= i < |qs| ==> ReplyTo(k, qs[i]).keepAlive)
              && (qs != [] ==> served + |qs| < k.maxServed) && |Text(k, Replies(k, qs))| <= space
    ensures Stays(k, served, space, qs, error) ==> Owed(k, served, space, qs, error) == Replies(k, qs)
    decreases |qs|
  {
    if qs != [] {
      var r := ReplyTo(k, qs[0]);
      var n := |k.serialize(r)|;
      TextFirst(k, r, Replies(k, qs[1..]));
      if n <= space { StaysIff(k, served + 1, space - n, qs[1..], error); }
    }
  }

  lemma {:induction false} RepliesAre(k: Config, qs: seq<Request>)
    ensures |Replies(k, qs)| == |qs| && forall i :: 0 <= i < |qs| ==> Replies(k, qs)[i] == ReplyTo(k, qs[i])
  {
    if qs != [] { RepliesAre(k, qs[1..]); }
  }

  // ----- what drive_parser does -----

  function Space(k: Config, c: Conn): nat {
    k.maxOut - (if |c.out| < k.maxOut then |c.out| else k.maxOut)
  }

  /** The connection d is c with these responses queued. */
  predicate Queued(k: Config, c: Conn, d: Conn, said: seq<Response>) {
    && d.said == c.said + said && d.out == c.out + Text(k, said)
    && d.wire == c.wire && d.got == c.got && d.open == c.open && d.state == c.state && d.awaiting == c.awaiting
  }

  lemma QueuedNone(k: Config, c: Conn, d: Conn)
    requires d == c.(parser := d.parser, buf := d.buf, asked := d.asked, served := d.served)
    ensures Queued(k, c, d, [])
  {
    assert c.said + [] == c.said && c.out + "" == c.out;
  }

  lemma QueuedOne(k: Config, c: Conn, r: Response)
    requires |k.serialize(r)| <= Space(k, c)
    ensures Enqueue(k, c, r) == Some(c.(out := c.out + k.serialize(r), said := c.said + [r]))
    ensures Queued(k, c, Enqueue(k, c, r).value, [r]) && Space(k, Enqueue(k, c, r).value) == Space(k, c) - |k.serialize(r)|
  {
    TextOfOne(k, r);
  }

  lemma QueuedMore(k: Config, c: Conn, d: Conn, e: Conn, r: Response, more: seq<Response>)
    requires Queued(k, c, d, [r]) && Queued(k, d, e, more)
    ensures Queued(k, c, e, [r] + more)
  {
    TextFirst(k, r, more);
    TextOfOne(k, r);
    assert c.said + [r] + more == c.said + ([r] + more);
    assert c.out + k.serialize(r) + Text(k, more) == c.out + (k.serialize(r) + Text(k, more));
  }

  /** The rest of the stream after the first request in it. */
  lemma RestOfStream(p: Parser, data: string)
    requires Open(p) && SessionBelow(p, data) && Feed(p, data).2 == Complete
    ensures var (q, rest, _) := Feed(p, data); var u, v := RunBytes(p, data), RunBytes(FRESH, rest);
            u.requests == [q.request] + v.requests && u.error == v.error
  {
    BelowByRequest(p, data);
    FeedIsBytes(p, data);
    BytesByRequest(p, data);
  }

  /** Where parsing stands in the stream. */
  ghost predicate Reads(c: Conn, u: Trace) {
    Open(c.parser) && SessionBelow(c.parser, c.buf) && u == RunBytes(c.parser, c.buf)
  }

  /** What drive_parser's loop makes of c, when the stream ahead is u. */
  ghost predicate InlineIsOwed(k: Config, c: Conn, u: Trace) {
    var (d, close) := Inline(k, c);
    OwesOut(k, c, d, close, u)
  }

  ghost predicate OwesOut(k: Config, c: Conn, d: Conn, close: bool, u: Trace) {
    var space := Space(k, c);
    && Queued(k, c, d, Owed(k, c.served, space, u.requests, u.error))
    && (close <==> !Stays(k, c.served, space, u.requests, u.error))
    && (!close ==> d.buf == "" && d.served == c.served + |u.requests|)
  }

  /** Without a pool, drive_parser's loop queues exactly what is owed to the bytes that have come, and closes
      exactly if the connection is not to stay open. */
  lemma {:induction false} InlineOwes(k: Config, c: Conn, u: Trace)
    requires Reads(c, u)
    ensures InlineIsOwed(k, c, u)
    decreases |c.buf|
  {
    FeedStep(c.parser, c.buf);
    var f := Feed(c.parser, c.buf);
    match f.2
    case NeedMore => QueuedNone(k, c, Inline(k, c).0);
    case Error => RefuseOwes(k, c, f.0);
    case Complete => AnswerOwes(k, c, u, f);
  }

  lemma RefuseOwes(k: Config, c: Conn, q: Parser)
    requires Ok(q) && Refused(q)
    ensures Queued(k, c, Refuse(k, c, q), Owed(k, c.served, Space(k, c), [], q.error))
  {
    var d := c.(parser := q, buf := "");
    if |k.serialize(q.error.value)| <= Space(k, c) { QueuedOne(k, d, q.error.value); } else { QueuedNone(k, c, d); }
  }

  /** A request has been parsed, and its response queued. */
  function Answered(k: Config, c: Conn, q: Request, rest: string): Conn {
    var r := ReplyTo(k, q);
    c.(parser := FRESH, buf := rest, asked := c.asked + [q], out := c.out + k.serialize(r), said := c.said + [r], served := c.served + 1)
  }

  /** A request has been parsed, and there was no space for its response. */
  function Dropped(c: Conn, q: LiveParser): Conn {
    c.(parser := q, buf := "", asked := c.asked + [q.request])
  }

  /** The next turn of the loop, if there is one. */
  function NextTurn(k: Config, turn: (Conn, bool, bool)): (Conn, bool) {
    if turn.2 then Inline(k, turn.0) else (turn.0, turn.1)
  }

  lemma InlineTurns(k: Config, c: Conn, f: (Parser, string, Status))
    requires f == Feed(c.parser, c.buf)
    ensures Inline(k, c) == NextTurn(k, InlineOnce(k, c, f))
  {
  }

  /** The turn that has parsed the request q. */
  lemma TurnAnswers(k: Config, c: Conn, q: LiveParser, rest: string)
    ensures var r := ReplyTo(k, q.request);
            InlineOnce(k, c, (q, rest, Complete))
            == if |k.serialize(r)| > Space(k, c) then (Dropped(c, q), true, false)
               else if r.keepAlive && c.served + 1 < k.maxServed then (Answered(k, c, q.request, rest), false, true)
               else (Answered(k, c, q.request, rest), true, false)
  {
  }

  lemma AnsweredIsQueued(k: Config, c: Conn, q: Request, rest: string)
    requires |k.serialize(ReplyTo(k, q))| <= Space(k, c)
    ensures Queued(k, c, Answered(k, c, q, rest), [ReplyTo(k, q)])
    ensures Space(k, Answered(k, c, q, rest)) == Space(k, c) - |k.serialize(ReplyTo(k, q))|
  {
    TextOfOne(k, ReplyTo(k, q));
  }

  /** What is owed to a stream that starts with the request q. */
  lemma OwedFirst(k: Config, served: nat, space: nat, q: Request, qs: seq<Request>, error: Option<Response>)
    ensures var r := ReplyTo(k, q); var n := |k.serialize(r)|; var go := r.keepAlive && served + 1 < k.maxServed;
            && Owed(k, served, space, [q] + qs, error)
               == (if n > space then [] else [r] + (if go then Owed(k, served + 1, space - n, qs, error) else []))
            && (Stays(k, served, space, [q] + qs, error) <==> n <= space && go && Stays(k, served + 1, space - n, qs, error))
  {
    assert ([q] + qs)[1..] == qs;
  }

  lemma {:induction false} AnswerOwes(k: Config, c: Conn, u: Trace, f: (Parser, string, Status))
    requires Reads(c, u) && f == Feed(c.parser, c.buf) && f.2 == Complete && |f.1| < |c.buf|
    ensures InlineIsOwed(k, c, u)
    decreases |c.buf|, 0
  {
    RestOfStream(c.parser, c.buf);
    BelowAfter(c.parser, c.buf);
    InlineTurns(k, c, f);
    TurnAnswers(k, c, f.0, f.1);
    var q, v := f.0.request, RunBytes(FRESH, f.1);
    var e := Answered(k, c, q, f.1);
    if |k.serialize(ReplyTo(k, q))| <= Space(k, c) && ReplyTo(k, q).keepAlive && c.served + 1 < k.maxServed {
      InlineOwes(k, e, v);
    }
    TurnOwes(k, c, u, f.0, f.1, v, Inline(k, c));
  }

  /** What is owed after that turn, once the rest `x` of the loop is known to do what it owes. */
  lemma TurnOwes(k: Config, c: Conn, u: Trace, p: LiveParser, rest: string, v: Trace, x: (Conn, bool))
    requires u.requests == [p.request] + v.requests && u.error == v.error
    requires var r := ReplyTo(k, p.request); var e := Answered(k, c, p.request, rest);
             if |k.serialize(r)| > Space(k, c) then x == (Dropped(c, p), true)
             else if r.keepAlive && c.served + 1 < k.maxServed then OwesOut(k, e, x.0, x.1, v)
             else x == (e, true)
    ensures OwesOut(k, c, x.0, x.1, u)
  {
    var q := p.request;
    OwedFirst(k, c.served, Space(k, c), q, v.requests, u.error);
    if |k.serialize(ReplyTo(k, q))| > Space(k, c) {
      QueuedNone(k, c, Dropped(c, p));
    } else {
      var e := Answered(k, c, q, rest);
      AnsweredIsQueued(k, c, q, rest);
      if ReplyTo(k, q).keepAlive && c.served + 1 < k.maxServed {
        QueuedMore(k, c, e, x.0, ReplyTo(k, q), Owed(k, e.served, Space(k, e), v.requests, u.error));
      } else {
        assert [ReplyTo(k, q)] + [] == [ReplyTo(k, q)];
      }
    }
  }

  lemma BelowAfter(p: Parser, data: string)
    requires Open(p) && SessionBelow(p, data) && Feed(p, data).2 == Complete
    ensures SessionBelow(FRESH, Feed(p, data).1)
  {
    BelowByRequest(p, data);
    FeedIsBytes(p, data);
  }

  // ----- what the callbacks do -----

  /** What has been queued goes out as far as the socket takes it. When it takes all, the connection is closed if
      it is to be; when it fails, it is closed; otherwise it waits to write the rest, and then to close or not. */
  predicate SentOut(c: Conn, close: bool, e: Sent, d: Conn) {
    && d.said == c.said && d.got == c.got && d.buf == c.buf && d.served == c.served && d.wire + d.out == c.wire + c.out
    && if e.n >= |c.out| then d.out == "" && (d.open <==> !close) && d.state == c.state
       else |d.out| == |c.out| - e.n && (d.open <==> !e.failed) && (d.open ==> d.state == if close then Closing else Writing)
  }

  lemma FinishSends(c: Conn, close: bool, e: Sent)
    requires c.open
    ensures SentOut(c, close, e, FinishDispatch(c, close, e).0)
    ensures FinishDispatch(c, close, e).1 <==> !close && e.n >= |c.out|
    ensures FinishDispatch(c, close, e).1 ==> FinishDispatch(c, close, e).0 == c.(wire := c.wire + c.out, out := "")
  {
    var d := Flush(c, e).0;
    assert d.wire + d.out == c.wire + c.out;
  }

  /** The requests behind the first n. */
  function Behind(qs: seq<Request>, n: nat): seq<Request> {
    if n <= |qs| then qs[n..] else []
  }

  /** The connection d is c after a callback in which exactly this was owed. */
  ghost predicate Paid(k: Config, c: Conn, d: Conn, qs: seq<Request>, error: Option<Response>, e: Sent) {
    var said := Owed(k, c.served, k.maxOut, qs, error);
    var stays := Stays(k, c.served, k.maxOut, qs, error);
    && d.said == c.said + said && d.wire + d.out == c.wire + Text(k, said)
    && (if e.n >= |Text(k, said)| then d.out == "" && (d.open <==> stays)
        else |d.out| == |Text(k, said)| - e.n && (d.open <==> !e.failed) && (d.open ==> d.state == if stays then Writing else Closing))
    && (stays ==> d.served == c.served + |qs| && d.buf == "")
  }

  /** What is ahead of a connection in the stream it has received. */
  lemma StreamAhead(c: Conn)
    requires Parsed(c.got, c.buf, c.parser, c.asked) && SessionBelow(FRESH, c.got)
    ensures Reads(c, RunBytes(c.parser, c.buf))
    ensures var t, u := RunBytes(FRESH, c.got), RunBytes(c.parser, c.buf); Behind(t.requests, |c.asked|) == u.requests && t.error == u.error
  {
    Ahead(c.got, c.buf, c.parser, c.asked);
    assert (c.asked + RunBytes(c.parser, c.buf).requests)[|c.asked|..] == RunBytes(c.parser, c.buf).requests;
  }

  /** Without a pool: after bytes have come, the connection has queued exactly what it owes to the whole stream so
      far and had not said yet, and is open exactly if it is to stay so, or has bytes to write. */
  lemma ReadableOwes(k: Config, c: Conn, data: string, room: bool, e: Sent)
    requires ConnOk(k, c) && c.open && c.state == Reading && !k.pooled && |c.buf| + |data| <= k.maxBuf
    requires SessionBelow(FRESH, c.got + data)
    ensures var d := OnReadable(k, c, data, false, room, e).0; var t := RunBytes(FRESH, c.got + data);
            d.got == c.got + data && Paid(k, c, d, Behind(t.requests, |c.said|), t.error, e)
  {
    var b := c.(buf := c.buf + data, got := c.got + data);
    Received(c, data);
    StreamAhead(b);
    var u := RunBytes(b.parser, b.buf);
    InlineOwes(k, b, u);
    var (i, close) := Inline(k, b);
    FinishSends(i, close, e);
    FinishedIsPaid(k, c, b, i, close, FinishDispatch(i, close, e).0, u, e);
  }

  lemma FinishedIsPaid(k: Config, c: Conn, b: Conn, i: Conn, close: bool, d: Conn, u: Trace, e: Sent)
    requires b == c.(buf := b.buf, got := b.got) && c.out == "" && OwesOut(k, b, i, close, u) && SentOut(i, close, e, d)
    ensures Paid(k, c, d, u.requests, u.error, e) && d.got == b.got
  {
    var said := Owed(k, c.served, k.maxOut, u.requests, u.error);
    assert i.out == "" + Text(k, said) == Text(k, said);
  }

  /** A socket that can be written to takes more of what is queued. */
  lemma WritableSends(c: Conn, e: Sent)
    requires c.open && c.state != Reading
    ensures var d := OnWritable(c, e);
            && d.said == c.said && d.wire + d.out == c.wire + c.out
            && if e.n >= |c.out| then d.out == "" && (d.open <==> c.state == Writing) && (d.open ==> d.state == Reading)
               else |d.out| == |c.out| - e.n && (d.open <==> !e.failed) && d.state == c.state
  {
    var d := Flush(c, e).0;
    assert d.wire + d.out == c.wire + c.out;
  }

  // ----- with a pool -----

  /** A worker's response is said, if there is space; the connection stays open, and parsing goes on, exactly if it
      keeps alive, fewer than the permitted number have been served, and the socket takes all of it. */
  lemma ResultOwes(k: Config, c: Conn, resp: Response, keep: bool, e: Sent)
    requires c.open && c.out == ""
    ensures var r := resp.(keepAlive := resp.keepAlive && keep); var (d, go) := OnResult(k, c, resp, keep, e);
            var fits := |k.serialize(r)| <= k.maxOut;
            var stays := fits && r.keepAlive && c.served + 1 < k.maxServed;
            && d.said == c.said + (if fits then [r] else [])
            && d.wire + d.out == c.wire + (if fits then k.serialize(r) else "")
            && (!fits || e.n >= |k.serialize(r)| ==> d.out == "" && (d.open <==> stays) && (go <==> stays))
            && (fits && e.n < |k.serialize(r)| ==> !go && (d.open <==> !e.failed) && (d.open ==> d.state == if stays then Writing else Closing))
            && (go ==> d == c.(awaiting := false, served := c.served + 1, said := c.said + [r], wire := c.wire + k.serialize(r)))
  {
    var (d, close) := Settle(k, c, resp, keep);
    FinishSends(d, close, e);
    assert "" + k.serialize(resp.(keepAlive := resp.keepAlive && keep)) == k.serialize(resp.(keepAlive := resp.keepAlive && keep));
    assert c.wire + "" == c.wire && c.said + [] == c.said;
  }

  /** The next of the requests `qs` ahead has gone to the pool; there being none, what is owed to an error is paid. */
  ghost predicate Dispatched(k: Config, c: Conn, got: string, x: (Conn, Option<Request>), qs: seq<Request>, error: Option<Response>, e: Sent) {
    var (d, job) := x;
    && d.got == got
    && (qs != [] ==> job == Some(qs[0]) && d.open && d.awaiting && d.said == c.said && d.asked == c.asked + [qs[0]])
    && (qs == [] ==> job == None && !d.awaiting && Paid(k, c, d, [], error, e))
  }

  /** What drive_parser does with a pool that has room, for a connection that waits for nothing: the next request
      of the stream goes to the pool; if there is none the connection goes on reading, or, after an error, says
      so and closes. */
  lemma DriveDispatches(k: Config, c: Conn, e: Sent)
    requires Ready(k, c, false) && c.out == "" && k.pooled && SessionBelow(FRESH, c.got)
    ensures var t := RunBytes(FRESH, c.got); Dispatched(k, c, c.got, Drive(k, c, true, e), Behind(t.requests, |c.asked|), t.error, e)
  {
    StreamAhead(c);
    FeedStep(c.parser, c.buf);
    var f := Feed(c.parser, c.buf);
    if f.2 == Complete {
      RestOfStream(c.parser, c.buf);
    } else {
      NothingDispatched(k, c, f, e);
    }
  }

  lemma NothingDispatched(k: Config, c: Conn, f: (Parser, string, Status), e: Sent)
    requires c.open && c.out == "" && !c.awaiting && Ok(f.0) && f.2 != Complete && (f.2 == Error ==> Refused(f.0)) && (f.2 == NeedMore ==> f.1 == "")
    ensures var (d, job) := Pooled(k, c, f, true, e);
            job == None && !d.awaiting && d.got == c.got && Paid(k, c, d, [], if f.2 == Error then f.0.error else None, e)
  {
    assert Text(k, []) == "" && c.said + [] == c.said && c.wire + "" == c.wire;
    match f.2
    case NeedMore => FinishSends(c.(parser := f.0, buf := f.1), false, e);
    case Error =>
      RefuseOwes(k, c, f.0);
      var d := Refuse(k, c, f.0);
      FinishSends(d, true, e);
      assert d.out == "" + Text(k, Owed(k, c.served, k.maxOut, [], f.0.error)) == Text(k, Owed(k, c.served, k.maxOut, [], f.0.error));
  }

  /** A response that keeps the connection alive, and is taken by the socket, is followed by the next request that
      the stream already has. */
  lemma NextIsDispatched(k: Config, c: Conn, resp: Response, keep: bool, e: Sent, f: Sent)
    requires Waits(k, c) && Fits(k, c, resp, keep) && k.pooled && SessionBelow(FRESH, c.got)
    requires var r := resp.(keepAlive := resp.keepAlive && keep);
             r.keepAlive && c.served + 1 < k.maxServed && |k.serialize(r)| <= k.maxOut && |k.serialize(r)| <= e.n
    ensures var (d, go) := OnResult(k, c, resp, keep, e); var (x, job) := Drive(k, d, true, f);
            var qs := Behind(RunBytes(FRESH, c.got).requests, |c.asked|);
            go && d.open && (qs != [] ==> job == Some(qs[0]) && x.open && x.awaiting && x.asked == c.asked + [qs[0]])
  {
    ResultOwes(k, c, resp, keep, e);
    OnResultKeeps(k, c, resp, keep, e);
    DriveDispatches(k, OnResult(k, c, resp, keep, e).0, f);
  }

  /** When the pool takes nothing more, the request that would have been dispatched is told so, and that is the end
      of the connection once the socket has taken it. */
  lemma DriveRefuses(k: Config, c: Conn, e: Sent)
    requires Ready(k, c, false) && c.out == "" && k.pooled && SessionBelow(FRESH, c.got)
    requires Behind(RunBytes(FRESH, c.got).requests, |c.asked|) != []
    ensures var (d, job) := Drive(k, c, false, e);
            && job == None && d.said == c.said + (if |k.serialize(BUSY)| <= k.maxOut then [BUSY] else [])
            && (e.n >= |k.serialize(BUSY)| ==> !d.open) && (d.open ==> d.state == Closing)
  {
    StreamAhead(c);
    FeedStep(c.parser, c.buf);
    var (q, rest, s) := Feed(c.parser, c.buf);
    if s == Complete {
      ResultOwes(k, c.(parser := FRESH, buf := rest, awaiting := true, asked := c.asked + [q.request]), BUSY, KeepAlive(q.request), e);
    }
  }

  /** With a pool: bytes that come while a request is out are kept. */
  lemma ReadableKeeps(k: Config, c: Conn, data: string, e: Sent)
    requires c.awaiting && |c.buf| + |data| <= k.maxBuf
    ensures OnReadable(k, c, data, false, true, e) == (c.(buf := c.buf + data, got := c.got + data), None)
  {
    ReadIsDrive(k, c, c.(buf := c.buf + data, got := c.got + data), data, e);
  }

  /** Otherwise the next request of the stream goes to the pool. */
  lemma ReadableDispatches(k: Config, c: Conn, data: string, e: Sent)
    requires ConnOk(k, c) && c.open && c.state == Reading && k.pooled && !c.awaiting && |c.buf| + |data| <= k.maxBuf
    requires SessionBelow(FRESH, c.got + data)
    ensures var (d, job) := OnReadable(k, c, data, false, true, e);
            var t := RunBytes(FRESH, c.got + data); var qs := Behind(t.requests, |c.asked|);
            Dispatched(k, c, c.got + data, (d, job), qs, t.error, e)
  {
    Received(c, data);
    var b := c.(buf := c.buf + data, got := c.got + data);
    ReadIsDrive(k, c, b, data, e);
    DriveDispatches(k, b, e);
    var t := RunBytes(FRESH, b.got);
    DispatchedFrom(k, b, c, Drive(k, b, true, e), Behind(t.requests, |c.asked|), t.error, e);
  }

  lemma ReadIsDrive(k: Config, c: Conn, b: Conn, data: string, e: Sent)
    requires b == c.(buf := c.buf + data, got := c.got + data) && |c.buf| + |data| <= k.maxBuf
    ensures OnReadable(k, c, data, false, true, e) == if c.awaiting then (b, None) else Drive(k, b, true, e)
  {
  }

  /** What was received does not change what is owed to the rest. */
  lemma DispatchedFrom(k: Config, b: Conn, c: Conn, x: (Conn, Option<Request>), qs: seq<Request>, error: Option<Response>, e: Sent)
    requires b == c.(buf := b.buf, got := b.got) && Dispatched(k, b, b.got, x, qs, error, e)
    ensures Dispatched(k, c, b.got, x, qs, error, e)
  {
  }

  /** In the server: the completion of a kept-alive response puts the connection's next request in the queue, if
      the queue has room. */
  lemma CompletionDispatches(k: Config, s: ServerRuns.Server, e: Sent, f: Sent)
    requires ServerRuns.Inv(k, s) && k.pooled && s.reactor.Delivering? && s.reactor.rest != [] && ServerRuns.Room(k, s)
    requires var x := s.reactor.rest[0]; x.id < |s.conns| && s.conns[x.id].open && SessionBelow(FRESH, s.conns[x.id].got)
    requires var x := s.reactor.rest[0]; var r := x.resp.(keepAlive := x.resp.keepAlive && x.keep);
             r.keepAlive && s.conns[x.id].served + 1 < k.maxServed && |k.serialize(r)| <= k.maxOut && |k.serialize(r)| <= e.n
    ensures ServerRuns.Enabled(k, s, ServerRuns.Deliver(e, f))
    ensures var x := s.reactor.rest[0]; var t := ServerRuns.Next(k, s, ServerRuns.Deliver(e, f));
            var qs := Behind(RunBytes(FRESH, s.conns[x.id].got).requests, |s.conns[x.id].asked|);
            qs != [] ==> t.queue == s.queue + [ServerRuns.Job(x.id, qs[0], KeepAlive(qs[0]))]
  {
    var x := s.reactor.rest[0];
    assert ServerRuns.ReplyOk(k, s, ServerRuns.Undelivered(s.reactor)[0]) && ServerRuns.SoundConn(k, s, x.id);
    NextIsDispatched(k, s.conns[x.id], x.resp, x.keep, e, f);
  }

  // ----- whole sessions -----

  /** All that is owed to a stream, space in the output queue aside. */
  function Due(k: Config, served: nat, qs: seq<Request>, error: Option<Response>): seq<Response>
    decreases |qs|
  {
    if qs == [] then if error.Some? then [error.value] else []
    else
      var r := ReplyTo(k, qs[0]);
      [r] + (if r.keepAlive && served + 1 < k.maxServed then Due(k, served + 1, qs[1..], error) else [])
  }

  /** No error, no response that closes, none too many. */
  predicate GoesOn(k: Config, served: nat, qs: seq<Request>, error: Option<Response>)
    decreases |qs|
  {
    if qs == [] then error == None
    else ReplyTo(k, qs[0]).keepAlive && served + 1 < k.maxServed && GoesOn(k, served + 1, qs[1..], error)
  }

  lemma {:induction false} GoesOnIff(k: Config, served: nat, qs: seq<Request>, error: Option<Response>)
    ensures GoesOn(k, served, qs, error) <==>
              && error == None && (forall i :: 0 <= i < |qs| ==> ReplyTo(k, qs[i]).keepAlive) && (qs != [] ==> served + |qs| < k.maxServed)
    decreases |qs|
  {
    if qs != [] { GoesOnIff(k, served + 1, qs[1..], error); }
  }

  /** Space for all that is due is space enough. */
  ghost predicate Enough(k: Config, served: nat, space: nat, qs: seq<Request>, error: Option<Response>) {
    && Owed(k, served, space, qs, error) == Due(k, served, qs, error)
    && (Stays(k, served, space, qs, error) <==> GoesOn(k, served, qs, error))
  }

  lemma {:induction false} SpaceEnough(k: Config, served: nat, space: nat, qs: seq<Request>, error: Option<Response>)
    requires |Text(k, Due(k, served, qs, error))| <= space
    ensures Enough(k, served, space, qs, error)
    decreases |qs|, 1
  {
    if qs == [] {
      NoneEnough(k, served, space, error);
    } else {
      assert [qs[0]] + qs[1..] == qs;
      FirstEnough(k, served, space, qs[0], qs[1..], error);
    }
  }

  lemma NoneEnough(k: Config, served: nat, space: nat, error: Option<Response>)
    requires |Text(k, Due(k, served, [], error))| <= space
    ensures Enough(k, served, space, [], error)
  {
    if error.Some? { TextOfOne(k, error.value); }
  }

  lemma {:induction false} FirstEnough(k: Config, served: nat, space: nat, q: Request, rest: seq<Request>, error: Option<Response>)
    requires |Text(k, Due(k, served, [q] + rest, error))| <= space
    ensures Enough(k, served, space, [q] + rest, error)
    decreases |rest| + 1, 0
  {
    SpaceForFirst(k, served, space, q, rest, error);
    if ReplyTo(k, q).keepAlive && served + 1 < k.maxServed {
      SpaceEnough(k, served + 1, space - |k.serialize(ReplyTo(k, q))|, rest, error);
    }
    EnoughFirst(k, served, space, q, rest, error);
  }

  lemma SpaceForFirst(k: Config, served: nat, space: nat, q: Request, rest: seq<Request>, error: Option<Response>)
    requires |Text(k, Due(k, served, [q] + rest, error))| <= space
    ensures var r := ReplyTo(k, q); var n := |k.serialize(r)|;
            n <= space && (r.keepAlive && served + 1 < k.maxServed ==> |Text(k, Due(k, served + 1, rest, error))| <= space - n)
  {
    DueFirst(k, served, q, rest, error);
    TextFirst(k, ReplyTo(k, q), if ReplyTo(k, q).keepAlive && served + 1 < k.maxServed then Due(k, served + 1, rest, error) else []);
  }

  lemma EnoughFirst(k: Config, served: nat, space: nat, q: Request, rest: seq<Request>, error: Option<Response>)
    requires var r := ReplyTo(k, q); var n := |k.serialize(r)|;
             n <= space && (r.keepAlive && served + 1 < k.maxServed ==> Enough(k, served + 1, space - n, rest, error))
    ensures Enough(k, served, space, [q] + rest, error)
  {
    OwedFirst(k, served, space, q, rest, error);
    DueFirst(k, served, q, rest, error);
  }

  /** More of a stream: the responses go on where they were, unless they have come to an end. */
  lemma {:induction false} DueMore(k: Config, served: nat, a: seq<Request>, b: seq<Request>, error: Option<Response>)
    ensures Due(k, served, a + b, error) == Due(k, served, a, None) + (if GoesOn(k, served, a, None) then Due(k, served + |a|, b, error) else [])
    ensures GoesOn(k, served, a + b, error) <==> GoesOn(k, served, a, None) && GoesOn(k, served + |a|, b, error)
    decreases |a|
  {
    if a == [] {
      assert a + b == b && [] + Due(k, served, b, error) == Due(k, served, b, error);
    } else {
      DueMore(k, served + 1, a[1..], b, error);
      DueFirst(k, served, a[0], a[1..], None);
      DueFirst(k, served, a[0], a[1..] + b, error);
      assert [a[0]] + a[1..] == a && [a[0]] + (a[1..] + b) == a + b;
      SaidOn([ReplyTo(k, a[0])], Due(k, served + 1, a[1..], None), if GoesOn(k, served + 1, a[1..], None) then Due(k, served + |a|, b, error) else []);
      assert [ReplyTo(k, a[0])] + [] == [ReplyTo(k, a[0])];
    }
  }

  lemma DueFirst(k: Config, served: nat, q: Request, qs: seq<Request>, error: Option<Response>)
    ensures var go := ReplyTo(k, q).keepAlive && served + 1 < k.maxServed;
            && Due(k, served, [q] + qs, error) == [ReplyTo(k, q)] + (if go then Due(k, served + 1, qs, error) else [])
            && (GoesOn(k, served, [q] + qs, error) <==> go && GoesOn(k, served + 1, qs, error))
  {
    assert ([q] + qs)[1..] == qs;
  }

  /** Without a pool: chunk after chunk is read as long as the connection is open, and the socket does `e` each time. */
  function Serve(k: Config, c: Conn, chunks: seq<string>, e: Sent): Conn
    decreases |chunks|
  {
    if chunks == [] || !c.open then c else Serve(k, OnReadable(k, c, chunks[0], false, false, e).0, chunks[1..], e)
  }

  predicate ChunksFit(k: Config, chunks: seq<string>) {
    forall i :: 0 <= i < |chunks| ==> |chunks[i]| <= k.maxBuf
  }

  /** What a session makes of c, when this is due. */
  predicate PaidInFull(k: Config, c: Conn, d: Conn, due: seq<Response>, goesOn: bool) {
    AllSent(k, d) && SaidMore(c.said, d.said, due) && d.open == goesOn
  }

  /** The wire holds everything said. */
  predicate AllSent(k: Config, d: Conn) {
    d.wire == Text(k, d.said) && d.out == ""
  }

  predicate SaidMore(before: seq<Response>, said: seq<Response>, due: seq<Response>) {
    said == before + due
  }

  /** The stream up to a cut, and all of it. */
  lemma StreamOn(got: string, data: string, n: nat)
    requires SessionBelow(FRESH, got + data) && n <= |RunBytes(FRESH, got).requests|
    ensures SessionBelow(FRESH, got)
    ensures var t, u := RunBytes(FRESH, got), RunBytes(FRESH, got + data);
            if t.error.Some? then u == t
            else |t.requests| <= |u.requests| && Behind(u.requests, n) == Behind(t.requests, n) + Behind(u.requests, |t.requests|)
  {
    HttpSession.BytesConcat(FRESH, got, data);
  }

  /** One chunk of a session in which everything fits. */
  lemma ChunkIsPaid(k: Config, c: Conn, data: string, e: Sent)
    requires Between(k, c) && |data| <= k.maxBuf && e.n >= k.maxOut && SessionBelow(FRESH, c.got + data)
    requires var t := RunBytes(FRESH, c.got + data); SpaceFor(k, c.served, Behind(t.requests, |c.said|), t.error)
    ensures var d := OnReadable(k, c, data, false, false, e).0; var t := RunBytes(FRESH, c.got + data); var qs := Behind(t.requests, |c.said|);
            && PaidInFull(k, c, d, Due(k, c.served, qs, t.error), GoesOn(k, c.served, qs, t.error)) && d.got == c.got + data
            && (d.open ==> Between(k, d) && d.served == c.served + |qs| && |d.said| == |c.said| + |qs|)
  {
    var d, t := OnReadable(k, c, data, false, false, e).0, RunBytes(FRESH, c.got + data);
    var qs := Behind(t.requests, |c.said|);
    ReadableOwes(k, c, data, false, e);
    SpaceEnough(k, c.served, k.maxOut, qs, t.error);
    OnReadableKeeps(k, c, data, false, false, e);
    StaysIff(k, c.served, k.maxOut, qs, t.error);
    RepliesAre(k, qs);
    assert d.wire + "" == d.wire;
  }

  /** Nothing is ahead of a connection that has parsed all it has received. */
  lemma NothingAhead(k: Config, c: Conn)
    requires Between(k, c) && SessionBelow(FRESH, c.got)
    ensures RunBytes(FRESH, c.got).requests == c.asked && RunBytes(FRESH, c.got).error == None && |c.asked| == |c.said|
  {
    assert c.got[..|c.got| - 0] == c.got;
  }

  /** A connection between two chunks of a session. */
  ghost predicate Between(k: Config, c: Conn) {
    ConnOk(k, c) && c.open && c.state == Reading && !k.pooled && c.buf == ""
  }

  /** There is space for every response that is due. */
  predicate SpaceFor(k: Config, served: nat, qs: seq<Request>, error: Option<Response>) {
    |Text(k, Due(k, served, qs, error))| <= k.maxOut
  }

  lemma SpaceForParts(k: Config, served: nat, a: seq<Request>, b: seq<Request>, error: Option<Response>)
    requires SpaceFor(k, served, a + b, error)
    ensures SpaceFor(k, served, a, None) && (GoesOn(k, served, a, None) ==> SpaceFor(k, served + |a|, b, error))
  {
    DueMore(k, served, a, b, error);
    TextJoin(k, Due(k, served, a, None), if GoesOn(k, served, a, None) then Due(k, served + |a|, b, error) else []);
  }

  lemma SaidMoreOn(a: seq<Response>, b: seq<Response>, c: seq<Response>, p: seq<Response>, q: seq<Response>)
    requires SaidMore(a, b, p) && SaidMore(b, c, q)
    ensures SaidMore(a, c, p + q)
  {
    SaidOn(a, p, q);
  }

  lemma SaidOn(a: seq<Response>, b: seq<Response>, c: seq<Response>)
    ensures a + b + c == a + (b + c)
  {
  }

  lemma ServeStep(k: Config, c: Conn, chunks: seq<string>, e: Sent)
    requires c.open && chunks != []
    ensures var d := OnReadable(k, c, chunks[0], false, false, e).0;
            Serve(k, c, chunks, e) == if d.open then Serve(k, d, chunks[1..], e) else d
  {
  }

  /** The responses so far are to requests of the stream. */
  lemma EnoughBehind(k: Config, c: Conn, data: string, rest: string)
    requires Between(k, c) && SessionBelow(FRESH, c.got + data + rest)
    ensures SessionBelow(FRESH, c.got + data) && |c.said| <= |RunBytes(FRESH, c.got + data).requests|
  {
    HttpSession.BytesConcat(FRESH, c.got + data, rest);
    HttpSession.BytesConcat(FRESH, c.got, data);
    NothingAhead(k, c);
  }

  /** In the middle of a session with `rest` to come, `u` being the whole stream. */
  ghost predicate UnderwayIs(k: Config, c: Conn, rest: string, e: Sent, u: Trace) {
    && Between(k, c) && e.n >= k.maxOut && SessionBelow(FRESH, c.got + rest) && u == RunBytes(FRESH, c.got + rest)
    && SpaceFor(k, c.served, Behind(u.requests, |c.said|), u.error)
  }

  /** The same as one fact, which a session carries along. */
  ghost predicate Underway(k: Config, c: Conn, rest: string, e: Sent, u: Trace) {
    UnderwayIs(k, c, rest, e, u)
  }

  /** At the end all is paid that was ahead of c in the stream. */
  predicate SettledIs(k: Config, c: Conn, x: Conn, u: Trace) {
    var qs := Behind(u.requests, |c.said|);
    PaidInFull(k, c, x, Due(k, c.served, qs, u.error), GoesOn(k, c.served, qs, u.error))
  }

  predicate Settled(k: Config, c: Conn, x: Conn, u: Trace) {
    SettledIs(k, c, x, u)
  }

  lemma NothingLeft(k: Config, c: Conn, e: Sent, u: Trace)
    requires Underway(k, c, "", e, u)
    ensures Settled(k, c, c, u)
  {
    assert c.got + "" == c.got && c.said + [] == c.said && c.wire + "" == c.wire;
    NothingAhead(k, c);
  }

  /** One chunk has been paid for; `t` is the stream up to it. */
  predicate OneChunk(k: Config, c: Conn, d: Conn, t: Trace, u: Trace) {
    var a := Behind(t.requests, |c.said|);
    && |c.said| <= |t.requests| && PaidInFull(k, c, d, Due(k, c.served, a, t.error), GoesOn(k, c.served, a, t.error))
    && (d.open ==> d.served == c.served + |a| && |d.said| == |t.requests|)
    && if t.error.Some? then u == t else Behind(u.requests, |c.said|) == a + Behind(u.requests, |t.requests|)
  }

  lemma ChunkEnds(k: Config, c: Conn, d: Conn, t: Trace, u: Trace)
    requires OneChunk(k, c, d, t, u) && !d.open
    ensures Settled(k, c, d, u)
  {
    if t.error == None {
      var a := Behind(t.requests, |c.said|);
      DueMore(k, c.served, a, Behind(u.requests, |t.requests|), u.error);
      assert Due(k, c.served, a, None) + [] == Due(k, c.served, a, None);
    }
  }

  lemma ChunkGoesOn(k: Config, c: Conn, d: Conn, t: Trace, u: Trace)
    requires OneChunk(k, c, d, t, u) && d.open && SpaceFor(k, c.served, Behind(u.requests, |c.said|), u.error)
    ensures SpaceFor(k, d.served, Behind(u.requests, |d.said|), u.error)
  {
    GoesOnWithout(k, c.served, Behind(t.requests, |c.said|), t.error);
    SpaceForParts(k, c.served, Behind(t.requests, |c.said|), Behind(u.requests, |t.requests|), u.error);
  }

  lemma ChunkThenRest(k: Config, c: Conn, d: Conn, x: Conn, t: Trace, u: Trace)
    requires OneChunk(k, c, d, t, u) && d.open && Settled(k, d, x, u)
    ensures Settled(k, c, x, u)
  {
    GoesOnWithout(k, c.served, Behind(t.requests, |c.said|), t.error);
    PartsAreSaid(k, c.served, c.said, d.said, x.said, Behind(t.requests, |c.said|), Behind(u.requests, |t.requests|), Behind(u.requests, |c.said|), u.error);
  }

  lemma GoesOnWithout(k: Config, served: nat, qs: seq<Request>, error: Option<Response>)
    requires GoesOn(k, served, qs, error)
    ensures error == None
    decreases |qs|
  {
    if qs != [] { GoesOnWithout(k, served + 1, qs[1..], error); }
  }

  lemma PartsAreSaid(k: Config, served: nat, before: seq<Response>, mid: seq<Response>, said: seq<Response>,
                     a: seq<Request>, b: seq<Request>, qs: seq<Request>, error: Option<Response>)
    requires qs == a + b && GoesOn(k, served, a, None)
    requires SaidMore(before, mid, Due(k, served, a, None)) && SaidMore(mid, said, Due(k, served + |a|, b, error))
    ensures SaidMore(before, said, Due(k, served, qs, error)) && (GoesOn(k, served, qs, error) <==> GoesOn(k, served + |a|, b, error))
  {
    DueMore(k, served, a, b, error);
    SaidMoreOn(before, mid, said, Due(k, served, a, None), Due(k, served + |a|, b, error));
  }

  /** What comes of a chunk in the middle of a session. */
  lemma FirstChunk(k: Config, c: Conn, data: string, rest: string, e: Sent, u: Trace) returns (t: Trace)
    requires Underway(k, c, data + rest, e, u) && |data| <= k.maxBuf
    ensures var d := OnReadable(k, c, data, false, false, e).0;
            OneChunk(k, c, d, t, u) && (d.open ==> Underway(k, d, rest, e, u))
  {
    assert c.got + data + rest == c.got + (data + rest);
    t := RunBytes(FRESH, c.got + data);
    EnoughBehind(k, c, data, rest);
    StreamOn(c.got + data, rest, |c.said|);
    SpaceForStart(k, c, t, u);
    ChunkIsPaid(k, c, data, e);
    var d := OnReadable(k, c, data, false, false, e).0;
    if d.open { ChunkGoesOn(k, c, d, t, u); }
  }

  /** There is space for what is due up to the chunk. */
  lemma SpaceForStart(k: Config, c: Conn, t: Trace, u: Trace)
    requires |c.said| <= |t.requests| && SpaceFor(k, c.served, Behind(u.requests, |c.said|), u.error)
    requires if t.error.Some? then u == t else Behind(u.requests, |c.said|) == Behind(t.requests, |c.said|) + Behind(u.requests, |t.requests|)
    ensures SpaceFor(k, c.served, Behind(t.requests, |c.said|), t.error)
  {
    if t.error == None { SpaceForParts(k, c.served, Behind(t.requests, |c.said|), Behind(u.requests, |t.requests|), u.error); }
  }

  /** The chunks of a session, one after the other. */
  lemma {:induction false} ChunksArePaid(k: Config, c: Conn, chunks: seq<string>, e: Sent, u: Trace)
    requires Underway(k, c, Concat(chunks), e, u) && ChunksFit(k, chunks)
    ensures Settled(k, c, Serve(k, c, chunks, e), u)
    decreases |chunks|
  {
    if chunks == [] {
      NothingLeft(k, c, e, u);
    } else {
      var t := FirstChunk(k, c, chunks[0], Concat(chunks[1..]), e, u);
      UnderwayIsOpen(k, c, Concat(chunks), e, u);
      ServeStep(k, c, chunks, e);
      var d := OnReadable(k, c, chunks[0], false, false, e).0;
      if d.open {
        ChunksArePaid(k, d, chunks[1..], e, u);
        ChunkThenRest(k, c, d, Serve(k, d, chunks[1..], e), t, u);
      } else {
        ChunkEnds(k, c, d, t, u);
      }
    }
  }

  lemma UnderwayIsOpen(k: Config, c: Conn, rest: string, e: Sent, u: Trace)
    requires Underway(k, c, rest, e, u)
    ensures c.open
  {
  }

  /** A whole session without a pool, of any chunks, on a socket that takes everything and with space for all
      responses: the wire holds exactly the responses that are due to the byte stream, and the connection is open
      exactly if there was no error, every response keeps alive and fewer than the permitted number were served. */
  lemma SessionIsAnswered(k: Config, chunks: seq<string>, e: Sent)
    requires !k.pooled && ChunksFit(k, chunks) && e.n >= k.maxOut && SessionBelow(FRESH, Concat(chunks))
    requires var t := RunBytes(FRESH, Concat(chunks)); SpaceFor(k, 0, t.requests, t.error)
    ensures var t := RunBytes(FRESH, Concat(chunks)); var d := Serve(k, ACCEPTED, chunks, e);
            && d.said == Due(k, 0, t.requests, t.error) && d.wire == Text(k, d.said)
            && (d.open <==> t.error == None && (forall i :: 0 <= i < |t.requests| ==> ReplyTo(k, t.requests[i]).keepAlive)
                            && (t.requests != [] ==> |t.requests| < k.maxServed))
            && (d.open ==> d.said == Replies(k, t.requests) && |d.said| == |t.requests|)
  {
    var t := RunBytes(FRESH, Concat(chunks));
    assert "" + Concat(chunks) == Concat(chunks) && Behind(t.requests, 0) == t.requests;
    ChunksArePaid(k, ACCEPTED, chunks, e, t);
    SpaceEnough(k, 0, k.maxOut, t.requests, t.error);
    StaysIff(k, 0, k.maxOut, t.requests, t.error);
    RepliesAre(k, t.requests);
    GoesOnIff(k, 0, t.requests, t.error);
    assert [] + Due(k, 0, t.requests, t.error) == Due(k, 0, t.requests, t.error);
  }
}
