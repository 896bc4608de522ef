/** The whole non-blocking HTTP server: the reactor thread's callbacks, one after the other, interleaved
    in every way with the worker threads, down to shutdown.
    (projects/05-arcserve/src/server/nonblocking_http_server.cpp, src/concurrency/bounded_work_queue.cpp,
    src/concurrency/worker_pool.cpp) */
module ServerRuns {
  import opened HttpParser
  import opened HttpSession
  import opened ServerProtocol

  /** A request on its way to a worker, and a response on its way back; `id` is the connection. */
  datatype Job = Job(id: nat, req: Request, keep: bool)
  datatype Reply = Reply(id: nat, resp: Response, keep: bool)

  datatype Worker =
    | Idle                 // in pop
    | Busy(job: Job)       // in the handler
    | Posting(reply: Reply)  // in push on the completion queue
    | Ticking              // pushed, before the write to the eventfd
    | Gone                 // out of worker_loop

  datatype Reactor =
    | Polling                       // about to wait for events, or to handle one
    | Woken                         // on_completion_readable: eventfd read, queue not drained yet
    | Delivering(rest: seq<Reply>)   // on_completion_readable: going through what was drained
    | Stopped                       // out of the reactor loop

  /** `queue` is the pool's, `finished` the completion queue, `tick` a readable eventfd. `lost` are the
      connections whose request a worker gave up on. The last three are history: what entered
      `queue`, what left it, and whose handler has returned or thrown. */
  datatype Server = Server(conns: seq<Conn>, queue: seq<Job>, workers: seq<Worker>, finished: seq<Reply>, tick: bool, reactor: Reactor,
                           poolClosed: bool, doneClosed: bool, lost: set<nat>, submitted: seq<Job>, taken: seq<Job>, ran: seq<Job>)

  datatype Step =
    | Accept
    | Read(id: nat, data: string, gone: bool, e: Sent)
    | Write(id: nat, e: Sent)
    | HangUp(id: nat)
    | Wake
    | Drain
    | Deliver(e: Sent, f: Sent)
    | Rest
    | Stop
    | CloseDone
    | ClosePool
    | Take(w: nat)
    | Handle(w: nat)
    | Throw(w: nat)
    | PushReply(w: nat)
    | GiveUp(w: nat)
    | Tick(w: nat)
    | Leave(w: nat)

  predicate Live(s: Server, id: nat) {
    s.reactor == Polling && id < |s.conns| && s.conns[id].open
  }

  predicate Is(s: Server, w: nat, x: Worker) {
    w < |s.workers| && s.workers[w] == x
  }

  predicate Enabled(k: Config, s: Server, a: Step) {
    match a
    case Accept => s.reactor == Polling
    case Read(id, _, _, _) => Live(s, id) && s.conns[id].state == Reading
    case Write(id, _) => Live(s, id) && s.conns[id].state != Reading
    case HangUp(id) => Live(s, id)
    case Wake => s.reactor == Polling && s.tick
    case Drain => s.reactor == Woken
    case Deliver(_, _) => s.reactor.Delivering? && s.reactor.rest != [] && s.reactor.rest[0].id < |s.conns|
    case Rest => s.reactor == Delivering([])
    case Stop => s.reactor == Polling
    case CloseDone => s.reactor == Stopped
    case ClosePool => true
    case Take(w) => Is(s, w, Idle) && s.queue != []
    case Handle(w) => w < |s.workers| && s.workers[w].Busy?
    case Throw(w) => w < |s.workers| && s.workers[w].Busy?
    case PushReply(w) => w < |s.workers| && s.workers[w].Posting? && !s.doneClosed && |s.finished| < k.doneCap
    case GiveUp(w) => w < |s.workers| && s.workers[w].Posting? && s.doneClosed
    case Tick(w) => Is(s, w, Ticking)
    case Leave(w) => Is(s, w, Idle) && s.poolClosed && s.queue == []
  }

  /** try_push on the pool's queue. */
  predicate Room(k: Config, s: Server) {
    !s.poolClosed && |s.queue| < k.queueCap
  }

  function With(s: Server, id: nat, c: Conn): Server
    requires id < |s.conns|
  {
    s.(conns := s.conns[id := c])
  }

  function Worked(s: Server, w: nat, x: Worker): Server
    requires w < |s.workers|
  {
    s.(workers := s.workers[w := x])
  }

  /** A connection has changed, and perhaps submitted a request. */
  function Submitted(s: Server, id: nat, c: Conn, req: Option<Request>): Server
    requires id < |s.conns|
  {
    match req
    case None => With(s, id, c)
    case Some(q) => With(s, id, c).(queue := s.queue + [Job(id, q, KeepAlive(q))], submitted := s.submitted + [Job(id, q, KeepAlive(q))])
  }

  /** A drained completion: on_worker_result, and drive_parser if parsing may go on. */
  function Delivered(k: Config, s: Server, x: Reply, e: Sent, f: Sent): Server
    requires x.id < |s.conns|
  {
    var c := s.conns[x.id];
    if !c.open then s
    else
      var (d, go) := OnResult(k, c, x.resp, x.keep, e);
      if go then
        var (u, req) := Drive(k, d, Room(k, s), f);
        Submitted(s, x.id, u, req)
      else With(s, x.id, d)
  }

  function Next(k: Config, s: Server, a: Step): Server
    requires Enabled(k, s, a)
  {
    match a
    case Accept => s.(conns := s.conns + [ACCEPTED])
    case Read(id, data, gone, e) =>
      var (c, req) := OnReadable(k, s.conns[id], data, gone, Room(k, s), e);
      Submitted(s, id, c, req)
    case Write(id, e) => With(s, id, OnWritable(s.conns[id], e))
    case HangUp(id) => With(s, id, Closed(s.conns[id]))
    case Wake => s.(tick := false, reactor := Woken)
    case Drain => s.(finished := [], reactor := Delivering(s.finished))
    case Deliver(e, f) => Delivered(k, s.(reactor := Delivering(s.reactor.rest[1..])), s.reactor.rest[0], e, f)
    case Rest => s.(reactor := Polling)
    case Stop => s.(reactor := Stopped)
    case CloseDone => s.(doneClosed := true)
    case ClosePool => s.(poolClosed := true)
    case Take(w) => Worked(s, w, Busy(s.queue[0])).(queue := s.queue[1..], taken := s.taken + [s.queue[0]])
    case Handle(w) =>
      var j := s.workers[w].job;
      Worked(s, w, Posting(Reply(j.id, k.handler(j.req), j.keep))).(ran := s.ran + [j])
    case Throw(w) => Worked(s, w, Idle).(lost := s.lost + {s.workers[w].job.id}, ran := s.ran + [s.workers[w].job])
    case PushReply(w) => Worked(s, w, Ticking).(finished := s.finished + [s.workers[w].reply])
    case GiveUp(w) => Worked(s, w, Idle).(lost := s.lost + {s.workers[w].reply.id})
    case Tick(w) => Worked(s, w, Idle).(tick := true)
    case Leave(w) => Worked(s, w, Gone)
  }

  // ----- one request at a time -----

  function InQueue(q: seq<Job>, id: nat): nat {
    if q == [] then 0 else (if q[0].id == id then 1 else 0) + InQueue(q[1..], id)
  }

  function InReplies(f: seq<Reply>, id: nat): nat {
    if f == [] then 0 else (if f[0].id == id then 1 else 0) + InReplies(f[1..], id)
  }

  function AtWorker(x: Worker, id: nat): nat {
    if (x.Busy? && x.job.id == id) || (x.Posting? && x.reply.id == id) then 1 else 0
  }

  function AtWorkers(ws: seq<Worker>, id: nat): nat {
    if ws == [] then 0 else AtWorker(ws[0], id) + AtWorkers(ws[1..], id)
  }

  function Undelivered(r: Reactor): seq<Reply> {
    if r.Delivering? then r.rest else []
  }

  /** How many of a connection's requests are with the pool or on the way back. */
  function InFlight(s: Server, id: nat): nat {
    InQueue(s.queue, id) + AtWorkers(s.workers, id) + InReplies(s.finished, id) + InReplies(Undelivered(s.reactor), id)
  }

  lemma {:induction false} InQueueMore(q: seq<Job>, j: Job, id: nat)
    ensures InQueue(q + [j], id) == InQueue(q, id) + (if j.id == id then 1 else 0)
  {
    if q != [] {
      assert (q + [j])[1..] == q[1..] + [j];
      InQueueMore(q[1..], j, id);
    }
  }

  lemma {:induction false} InRepliesMore(f: seq<Reply>, x: Reply, id: nat)
    ensures InReplies(f + [x], id) == InReplies(f, id) + (if x.id == id then 1 else 0)
  {
    if f != [] {
      assert (f + [x])[1..] == f[1..] + [x];
      InRepliesMore(f[1..], x, id);
    }
  }

  lemma {:induction false} AtWorkersUpdate(ws: seq<Worker>, w: nat, x: Worker, id: nat)
    requires w < |ws|
    ensures AtWorkers(ws[w := x], id) + AtWorker(ws[w], id) == AtWorkers(ws, id) + AtWorker(x, id)
  {
    if w == 0 {
      assert ws[0 := x][1..] == ws[1..];
    } else {
      assert ws[w := x][1..] == ws[1..][w - 1 := x];
      AtWorkersUpdate(ws[1..], w - 1, x, id);
    }
  }

  /** What is in flight for a connection is what it waits for. */
  predicate JobOk(s: Server, j: Job) {
    j.id < |s.conns| && j.keep == KeepAlive(j.req)
    && (s.conns[j.id].open ==> s.conns[j.id].awaiting && s.conns[j.id].asked != [] && s.conns[j.id].asked[|s.conns[j.id].asked| - 1] == j.req)
  }

  predicate ReplyOk(k: Config, s: Server, x: Reply) {
    x.id < |s.conns| && (s.conns[x.id].open ==> s.conns[x.id].awaiting && Fits(k, s.conns[x.id], x.resp, x.keep))
  }

  predicate WorkerOk(k: Config, s: Server, x: Worker) {
    && (x.Busy? ==> JobOk(s, x.job)) && (x.Posting? ==> ReplyOk(k, s, x.reply))
    && (x == Gone ==> s.poolClosed && s.queue == [])
  }

  /** A connection has one request in flight if it waits, unless the worker gave up on it, and none if not. */
  predicate OneAtATime(s: Server, id: nat) {
    && InFlight(s, id) + (if id in s.lost then 1 else 0) <= 1
    && (id < |s.conns| ==> (s.conns[id].open ==> InFlight(s, id) + (if id in s.lost then 1 else 0) == (if s.conns[id].awaiting then 1 else 0)))
    && (id >= |s.conns| ==> InFlight(s, id) == 0 && id !in s.lost)
  }

  ghost predicate SoundConn(k: Config, s: Server, id: nat) {
    id < |s.conns| ==> SoundOne(k, s.conns[id])
  }

  /** ConnOk as one fact: a run carries it along, and only what one connection does looks inside. */
  ghost predicate SoundOne(k: Config, c: Conn) {
    ConnOk(k, c)
  }

  ghost predicate Sound(k: Config, s: Server) {
    forall id: nat {:trigger SoundConn(k, s, id)} :: SoundConn(k, s, id)
  }

  ghost predicate Counted(s: Server) {
    forall id: nat {:trigger OneAtATime(s, id)} :: OneAtATime(s, id)
  }

  ghost predicate Carried(k: Config, s: Server) {
    && (forall i {:trigger s.queue[i]} :: 0 <= i < |s.queue| ==> JobOk(s, s.queue[i]))
    && (forall w {:trigger s.workers[w]} :: 0 <= w < |s.workers| ==> WorkerOk(k, s, s.workers[w]))
    && (forall i {:trigger s.finished[i]} :: 0 <= i < |s.finished| ==> ReplyOk(k, s, s.finished[i]))
    && (forall i {:trigger Undelivered(s.reactor)[i]} :: 0 <= i < |Undelivered(s.reactor)| ==> ReplyOk(k, s, Undelivered(s.reactor)[i]))
  }

  /** How many workers have request j in the handler. */
  function Running(ws: seq<Worker>, j: Job): nat {
    if ws == [] then 0 else (if ws[0] == Busy(j) then 1 else 0) + Running(ws[1..], j)
  }

  lemma {:induction false} RunningUpdate(ws: seq<Worker>, w: nat, x: Worker, j: Job)
    requires w < |ws|
    ensures Running(ws[w := x], j) + (if ws[w] == Busy(j) then 1 else 0) == Running(ws, j) + (if x == Busy(j) then 1 else 0)
  {
    if w == 0 {
      assert ws[0 := x][1..] == ws[1..];
    } else {
      assert ws[w := x][1..] == ws[1..][w - 1 := x];
      RunningUpdate(ws[1..], w - 1, x, j);
    }
  }

  lemma {:induction false} NobodyRuns(ws: seq<Worker>, j: Job)
    requires forall w :: 0 <= w < |ws| ==> !ws[w].Busy?
    ensures Running(ws, j) == 0
  {
    if ws != [] {
      NobodyRuns(ws[1..], j);
    }
  }

  /** Request j has been taken as often as its handler is done or at work. */
  predicate TalliedOne(taken: seq<Job>, ran: seq<Job>, ws: seq<Worker>, j: Job) {
    multiset(taken)[j] == multiset(ran)[j] + Running(ws, j)
  }

  ghost predicate Tallied(taken: seq<Job>, ran: seq<Job>, ws: seq<Worker>) {
    forall j {:trigger TalliedOne(taken, ran, ws, j)} :: TalliedOne(taken, ran, ws, j)
  }

  /** Somebody will make the reactor drain the completion queue. */
  ghost predicate WakeUpComing(s: Server) {
    s.tick || s.reactor == Woken || exists w :: 0 <= w < |s.workers| && s.workers[w] == Ticking
  }

  ghost predicate Tidy(k: Config, s: Server) {
    && |s.queue| <= k.queueCap && |s.finished| <= k.doneCap && s.submitted == s.taken + s.queue
    && Tallied(s.taken, s.ran, s.workers)
    && (s.doneClosed ==> s.reactor == Stopped)
    && (s.finished != [] && s.reactor != Stopped ==> WakeUpComing(s))
  }

  ghost predicate Inv(k: Config, s: Server) {
    Sound(k, s) && Counted(s) && Carried(k, s) && Tidy(k, s)
  }

  // ----- every step keeps the invariant -----

  lemma {:induction false} Queued(q: seq<Job>, i: nat, id: nat)
    requires i < |q| && q[i].id == id
    ensures InQueue(q, id) >= 1
  {
    if i > 0 { Queued(q[1..], i - 1, id); }
  }

  lemma {:induction false} Replied(f: seq<Reply>, i: nat, id: nat)
    requires i < |f| && f[i].id == id
    ensures InReplies(f, id) >= 1
  {
    if i > 0 { Replied(f[1..], i - 1, id); }
  }

  lemma {:induction false} Working(ws: seq<Worker>, w: nat, id: nat)
    requires w < |ws|
    ensures AtWorkers(ws, id) >= AtWorker(ws[w], id)
  {
    if w > 0 { Working(ws[1..], w - 1, id); }
  }

  /** A connection changes that has nothing in flight, or that closes, or that goes on waiting for the same. */
  predicate Harmless(s: Server, id: nat, c: Conn) {
    id < |s.conns| && (c.open ==> InFlight(s, id) == 0 || (s.conns[id].open && c.awaiting == s.conns[id].awaiting && c.asked == s.conns[id].asked))
  }

  lemma HarmlessCarries(k: Config, s: Server, id: nat, c: Conn)
    requires Carried(k, s) && Harmless(s, id, c)
    ensures Carried(k, With(s, id, c))
  {
    var t := With(s, id, c);
    HarmlessQueue(k, s, id, c);
    HarmlessReplies(k, s, id, c, s.finished);
    HarmlessReplies(k, s, id, c, Undelivered(s.reactor));
    assert t.finished == s.finished && Undelivered(t.reactor) == Undelivered(s.reactor);
  }

  lemma HarmlessQueue(k: Config, s: Server, id: nat, c: Conn)
    requires Carried(k, s) && Harmless(s, id, c)
    ensures var t := With(s, id, c);
            && (forall i {:trigger t.queue[i]} :: 0 <= i < |t.queue| ==> JobOk(t, t.queue[i]))
            && (forall w {:trigger t.workers[w]} :: 0 <= w < |t.workers| ==> WorkerOk(k, t, t.workers[w]))
  {
    var t := With(s, id, c);
    forall i | 0 <= i < |s.queue| ensures JobOk(t, t.queue[i]) {
      assert JobOk(s, s.queue[i]);
      if s.queue[i].id == id { Queued(s.queue, i, id); }
    }
    forall w | 0 <= w < |s.workers| ensures WorkerOk(k, t, t.workers[w]) {
      assert WorkerOk(k, s, s.workers[w]);
      Working(s.workers, w, id);
    }
  }

  lemma HarmlessReplies(k: Config, s: Server, id: nat, c: Conn, rs: seq<Reply>)
    requires Harmless(s, id, c) && InFlight(s, id) >= InReplies(rs, id)
    requires forall i {:trigger rs[i]} :: 0 <= i < |rs| ==> ReplyOk(k, s, rs[i])
    ensures forall i {:trigger rs[i]} :: 0 <= i < |rs| ==> ReplyOk(k, With(s, id, c), rs[i])
  {
    forall i | 0 <= i < |rs| ensures ReplyOk(k, With(s, id, c), rs[i]) {
      assert ReplyOk(k, s, rs[i]);
      if rs[i].id == id { Replied(rs, i, id); }
    }
  }

  /** What a callback may do to connection `id`, which had no request in flight, or closes, or only gets
      more input. */
  ghost predicate Callback(k: Config, s: Server, id: nat, c: Conn, req: Option<Request>) {
    && Harmless(s, id, c) && (c.open ==> s.conns[id].open)
    && (req == None && c.open && c.awaiting ==> InFlight(s, id) + (if id in s.lost then 1 else 0) == 1)
    && (c.open && !c.awaiting ==> InFlight(s, id) + (if id in s.lost then 1 else 0) == 0)
    && (req.Some? ==> Room(k, s) && c.open && c.awaiting && InFlight(s, id) == 0 && id !in s.lost && c.asked != [] && c.asked[|c.asked| - 1] == req.value)
  }

  /** All connections but `id` have at most one request in flight, and `id` does not have more. */
  ghost predicate CountedBut(s: Server, id: nat) {
    && (forall x: nat {:trigger OneAtATime(s, x)} :: x != id ==> OneAtATime(s, x))
    && InFlight(s, id) + (if id in s.lost then 1 else 0) <= 1
  }

  lemma CallbackCounted(k: Config, s: Server, id: nat, c: Conn, req: Option<Request>)
    requires Callback(k, s, id, c, req) && CountedBut(s, id)
    ensures Counted(Submitted(s, id, c, req))
  {
    var t := Submitted(s, id, c, req);
    forall x: nat ensures OneAtATime(t, x) {
      assert x != id ==> OneAtATime(s, x);
      if req.Some? { InQueueMore(s.queue, Job(id, req.value, KeepAlive(req.value)), x); }
    }
  }

  lemma CallbackCarried(k: Config, s: Server, id: nat, c: Conn, req: Option<Request>)
    requires Callback(k, s, id, c, req) && Carried(k, s)
    ensures Carried(k, Submitted(s, id, c, req))
  {
    HarmlessCarries(k, s, id, c);
    var u, t := With(s, id, c), Submitted(s, id, c, req);
    if req.Some? {
      forall i | 0 <= i < |t.queue| ensures JobOk(t, t.queue[i]) { if i < |s.queue| { assert JobOk(u, u.queue[i]); } }
      forall w | 0 <= w < |t.workers| ensures WorkerOk(k, t, t.workers[w]) { assert WorkerOk(k, u, u.workers[w]); }
      forall i | 0 <= i < |t.finished| ensures ReplyOk(k, t, t.finished[i]) { assert ReplyOk(k, u, u.finished[i]); }
      forall i | 0 <= i < |Undelivered(t.reactor)| ensures ReplyOk(k, t, Undelivered(t.reactor)[i]) { assert ReplyOk(k, u, Undelivered(u.reactor)[i]); }
    }
  }

  lemma CallbackTidy(k: Config, s: Server, id: nat, c: Conn, req: Option<Request>)
    requires id < |s.conns| && Tidy(k, s) && (req.Some? ==> Room(k, s))
    ensures Tidy(k, Submitted(s, id, c, req))
  {
    if req.Some? {
      var j := Job(id, req.value, KeepAlive(req.value));
      assert s.taken + s.queue + [j] == s.taken + (s.queue + [j]);
    }
  }

  lemma CallbackSound(k: Config, s: Server, id: nat, c: Conn, req: Option<Request>)
    requires id < |s.conns| && Sound(k, s) && SoundOne(k, c)
    ensures Sound(k, Submitted(s, id, c, req))
  {
    forall x: nat ensures SoundConn(k, Submitted(s, id, c, req), x) { assert SoundConn(k, s, x); }
  }

  lemma CallbackKeeps(k: Config, s: Server, id: nat, c: Conn, req: Option<Request>)
    requires Sound(k, s) && Carried(k, s) && Tidy(k, s) && Callback(k, s, id, c, req) && CountedBut(s, id) && SoundOne(k, c)
    ensures Inv(k, Submitted(s, id, c, req))
  {
    CallbackCounted(k, s, id, c, req);
    CallbackCarried(k, s, id, c, req);
    CallbackTidy(k, s, id, c, req);
    CallbackSound(k, s, id, c, req);
  }

  lemma ReadKeeps(k: Config, s: Server, id: nat, data: string, gone: bool, e: Sent)
    requires Inv(k, s) && Enabled(k, s, Read(id, data, gone, e))
    ensures Inv(k, Next(k, s, Read(id, data, gone, e)))
  {
    assert SoundConn(k, s, id) && OneAtATime(s, id);
    OnReadableSound(k, s.conns[id], data, gone, Room(k, s), e);
    var (c, req) := OnReadable(k, s.conns[id], data, gone, Room(k, s), e);
    CallbackKeeps(k, s, id, c, req);
  }

  lemma OnReadableSound(k: Config, c: Conn, data: string, gone: bool, room: bool, e: Sent)
    requires SoundOne(k, c) && c.open && c.state == Reading
    ensures var (d, job) := OnReadable(k, c, data, gone, room, e);
            && SoundOne(k, d) && (job.Some? ==> room && !c.awaiting && d.awaiting && d.open && d.asked != [] && d.asked[|d.asked| - 1] == job.value)
            && (job == None ==> d.awaiting == c.awaiting)
            && (c.awaiting ==> d.asked == c.asked)
  {
    OnReadableKeeps(k, c, data, gone, room, e);
  }

  lemma WriteKeeps(k: Config, s: Server, id: nat, e: Sent)
    requires Inv(k, s) && Enabled(k, s, Write(id, e))
    ensures Inv(k, Next(k, s, Write(id, e)))
  {
    assert SoundConn(k, s, id) && OneAtATime(s, id);
    OnWritableKeeps(k, s.conns[id], e);
    CallbackKeeps(k, s, id, OnWritable(s.conns[id], e), None);
  }

  lemma HangUpKeeps(k: Config, s: Server, id: nat)
    requires Inv(k, s) && Enabled(k, s, HangUp(id))
    ensures Inv(k, Next(k, s, HangUp(id)))
  {
    assert SoundConn(k, s, id) && OneAtATime(s, id);
    CallbackKeeps(k, s, id, Closed(s.conns[id]), None);
  }

  lemma AcceptKeeps(k: Config, s: Server)
    requires Inv(k, s)
    ensures Inv(k, s.(conns := s.conns + [ACCEPTED]))
  {
    var t := s.(conns := s.conns + [ACCEPTED]);
    AcceptedIsSound(k);
    forall id: nat ensures SoundConn(k, t, id) { assert SoundConn(k, s, id); }
    forall id: nat ensures OneAtATime(t, id) { assert OneAtATime(s, id); }
    forall i | 0 <= i < |t.queue| ensures JobOk(t, t.queue[i]) { assert JobOk(s, s.queue[i]); }
    forall w | 0 <= w < |t.workers| ensures WorkerOk(k, t, t.workers[w]) { assert WorkerOk(k, s, s.workers[w]); }
    forall i | 0 <= i < |t.finished| ensures ReplyOk(k, t, t.finished[i]) { assert ReplyOk(k, s, s.finished[i]); }
    forall i | 0 <= i < |Undelivered(t.reactor)| ensures ReplyOk(k, t, Undelivered(t.reactor)[i]) { assert ReplyOk(k, s, Undelivered(s.reactor)[i]); }
  }

  lemma AcceptedIsSound(k: Config)
    ensures SoundOne(k, ACCEPTED)
  {
  }

  /** A completion goes to its connection. */
  lemma DeliverKeeps(k: Config, s: Server, e: Sent, f: Sent)
    requires Inv(k, s) && Enabled(k, s, Deliver(e, f))
    ensures Inv(k, Next(k, s, Deliver(e, f)))
  {
    var x, rest := s.reactor.rest[0], s.reactor.rest[1..];
    var t := s.(reactor := Delivering(rest));
    assert ReplyOk(k, s, Undelivered(s.reactor)[0]);
    TakenOff(k, s, x, rest);
    assert SoundConn(k, t, x.id);
    if s.conns[x.id].open {
      ResultKeeps(k, t, x, e, f);
    } else {
      ClosedIsCounted(t, x.id);
    }
  }

  lemma ResultKeeps(k: Config, t: Server, x: Reply, e: Sent, f: Sent)
    requires x.id < |t.conns| && t.conns[x.id].open && ReplyOk(k, t, x) && SoundOne(k, t.conns[x.id])
    requires Sound(k, t) && Carried(k, t) && Tidy(k, t) && CountedBut(t, x.id) && InFlight(t, x.id) == 0 && x.id !in t.lost
    ensures Inv(k, Delivered(k, t, x, e, f))
  {
    var c := t.conns[x.id];
    ResultSound(k, c, x.resp, x.keep, e, Room(k, t), f);
    var (d, go) := OnResult(k, c, x.resp, x.keep, e);
    if go {
      var (u, req) := Drive(k, d, Room(k, t), f);
      CallbackKeeps(k, t, x.id, u, req);
    } else {
      CallbackKeeps(k, t, x.id, d, None);
    }
  }

  lemma ClosedIsCounted(t: Server, id: nat)
    requires CountedBut(t, id) && id < |t.conns| && !t.conns[id].open
    ensures Counted(t)
  {
    forall y: nat ensures OneAtATime(t, y) { assert y != id ==> OneAtATime(t, y); }
  }

  /** The first drained completion is taken off the list. */
  lemma TakenOff(k: Config, s: Server, x: Reply, rest: seq<Reply>)
    requires Inv(k, s) && s.reactor.Delivering? && s.reactor.rest == [x] + rest && x.id < |s.conns|
    ensures var t := s.(reactor := Delivering(rest));
            && Sound(k, t) && Carried(k, t) && Tidy(k, t) && CountedBut(t, x.id)
            && InFlight(t, x.id) + 1 == InFlight(s, x.id) && InFlight(t, x.id) == 0 && x.id !in s.lost
  {
    var t := s.(reactor := Delivering(rest));
    assert OneAtATime(s, x.id);
    assert s.reactor.rest[1..] == rest;
    forall id: nat ensures SoundConn(k, t, id) { assert SoundConn(k, s, id); }
    forall y: nat | y != x.id ensures OneAtATime(t, y) { assert OneAtATime(s, y); }
    forall i | 0 <= i < |t.queue| ensures JobOk(t, t.queue[i]) { assert JobOk(s, s.queue[i]); }
    forall w | 0 <= w < |t.workers| ensures WorkerOk(k, t, t.workers[w]) { assert WorkerOk(k, s, s.workers[w]); }
    forall i | 0 <= i < |t.finished| ensures ReplyOk(k, t, t.finished[i]) { assert ReplyOk(k, s, s.finished[i]); }
    forall i | 0 <= i < |rest| ensures ReplyOk(k, t, Undelivered(t.reactor)[i]) { assert ReplyOk(k, s, Undelivered(s.reactor)[i + 1]); }
  }

  lemma ResultSound(k: Config, c: Conn, resp: Response, keep: bool, e: Sent, room: bool, f: Sent)
    requires SoundOne(k, c) && c.open && c.awaiting && Fits(k, c, resp, keep)
    ensures var (d, go) := OnResult(k, c, resp, keep, e);
            if go then
              var (u, req) := Drive(k, d, room, f);
              SoundOne(k, u) && (u.awaiting <==> req.Some?) && (req.Some? ==> room && u.open && u.asked != [] && u.asked[|u.asked| - 1] == req.value)
            else SoundOne(k, d) && !d.awaiting
  {
    OnResultKeeps(k, c, resp, keep, e);
    var (d, go) := OnResult(k, c, resp, keep, e);
    if go { DriveSound(k, d, room, f); }
  }

  lemma DriveSound(k: Config, d: Conn, room: bool, f: Sent)
    requires Ready(k, d, false) && ConnOk(k, d)
    ensures var (u, req) := Drive(k, d, room, f);
            SoundOne(k, u) && (u.awaiting <==> req.Some?) && (req.Some? ==> room && u.open && u.asked != [] && u.asked[|u.asked| - 1] == req.value)
  {
    DriveKeeps(k, d, room, f);
  }

  /** What the reactor does between callbacks. */
  lemma ReactorKeeps(k: Config, s: Server, a: Step)
    requires Inv(k, s) && Enabled(k, s, a) && a in {Wake, Drain, Rest, Stop, CloseDone, ClosePool}
    ensures Inv(k, Next(k, s, a))
  {
    var t := Next(k, s, a);
    forall id: nat ensures SoundConn(k, t, id) { assert SoundConn(k, s, id); }
    forall id: nat ensures OneAtATime(t, id) { assert OneAtATime(s, id); }
    forall i | 0 <= i < |t.queue| ensures JobOk(t, t.queue[i]) { assert JobOk(s, s.queue[i]); }
    forall w | 0 <= w < |t.workers| ensures WorkerOk(k, t, t.workers[w]) { assert WorkerOk(k, s, s.workers[w]); }
    forall i | 0 <= i < |t.finished| ensures ReplyOk(k, t, t.finished[i]) { assert ReplyOk(k, s, s.finished[i]); }
    forall i | 0 <= i < |Undelivered(t.reactor)| ensures ReplyOk(k, t, Undelivered(t.reactor)[i]) {
      if a == Drain { assert ReplyOk(k, s, s.finished[i]); } else { assert ReplyOk(k, s, Undelivered(s.reactor)[i]); }
    }
  }

  predicate ByWorker(a: Step, w: nat) {
    a in {Take(w), Handle(w), Throw(w), PushReply(w), GiveUp(w), Tick(w), Leave(w)}
  }

  lemma TakeCounted(k: Config, s: Server, w: nat)
    requires Inv(k, s) && Enabled(k, s, Take(w))
    ensures Counted(Next(k, s, Take(w)))
  {
    assert s.queue == [s.queue[0]] + s.queue[1..] && JobOk(s, s.queue[0]);
    forall id: nat ensures OneAtATime(Next(k, s, Take(w)), id) {
      assert OneAtATime(s, id);
      AtWorkersUpdate(s.workers, w, Busy(s.queue[0]), id);
    }
  }

  lemma PushCounted(k: Config, s: Server, w: nat)
    requires Inv(k, s) && Enabled(k, s, PushReply(w))
    ensures Counted(Next(k, s, PushReply(w)))
  {
    assert WorkerOk(k, s, s.workers[w]);
    forall id: nat ensures OneAtATime(Next(k, s, PushReply(w)), id) {
      assert OneAtATime(s, id);
      AtWorkersUpdate(s.workers, w, Ticking, id);
      InRepliesMore(s.finished, s.workers[w].reply, id);
    }
  }

  /** A worker moves a request on, or gives it up. */
  lemma WorkerCounted(k: Config, s: Server, a: Step, w: nat)
    requires Inv(k, s) && Enabled(k, s, a) && ByWorker(a, w)
    ensures Counted(Next(k, s, a))
  {
    if a == Take(w) {
      TakeCounted(k, s, w);
    } else if a == PushReply(w) {
      PushCounted(k, s, w);
    } else if a == Throw(w) || a == GiveUp(w) {
      LostCounted(k, s, a, w);
    } else {
      var t := Next(k, s, a);
      forall id: nat ensures OneAtATime(t, id) {
        assert OneAtATime(s, id);
        AtWorkersUpdate(s.workers, w, t.workers[w], id);
      }
    }
  }

  lemma LostCounted(k: Config, s: Server, a: Step, w: nat)
    requires Inv(k, s) && Enabled(k, s, a) && (a == Throw(w) || a == GiveUp(w))
    ensures Counted(Next(k, s, a))
  {
    assert WorkerOk(k, s, s.workers[w]);
    forall id: nat ensures OneAtATime(Next(k, s, a), id) {
      assert OneAtATime(s, id);
      AtWorkersUpdate(s.workers, w, Idle, id);
      Working(s.workers, w, id);
    }
  }

  lemma TakeCarried(k: Config, s: Server, w: nat)
    requires Carried(k, s) && Enabled(k, s, Take(w))
    ensures var t := Next(k, s, Take(w));
            forall v {:trigger t.workers[v]} :: 0 <= v < |t.workers| ==> WorkerOk(k, t, t.workers[v])
  {
    var t := Next(k, s, Take(w));
    assert JobOk(s, s.queue[0]);
    forall v | 0 <= v < |t.workers| ensures WorkerOk(k, t, t.workers[v]) { assert WorkerOk(k, s, s.workers[v]); }
  }

  lemma WorkersCarried(k: Config, s: Server, a: Step, w: nat)
    requires Carried(k, s) && Enabled(k, s, a) && ByWorker(a, w)
    ensures var t := Next(k, s, a);
            forall v {:trigger t.workers[v]} :: 0 <= v < |t.workers| ==> WorkerOk(k, t, t.workers[v])
  {
    var t := Next(k, s, a);
    if a == Take(w) {
      TakeCarried(k, s, w);
    } else {
      assert WorkerOk(k, s, s.workers[w]);
      forall v | 0 <= v < |t.workers| ensures WorkerOk(k, t, t.workers[v]) { assert WorkerOk(k, s, s.workers[v]); }
    }
  }

  lemma QueueCarried(k: Config, s: Server, a: Step, w: nat)
    requires Inv(k, s) && Enabled(k, s, a) && ByWorker(a, w)
    ensures var t := Next(k, s, a);
            && (forall i {:trigger t.queue[i]} :: 0 <= i < |t.queue| ==> JobOk(t, t.queue[i]))
            && (forall i {:trigger t.finished[i]} :: 0 <= i < |t.finished| ==> ReplyOk(k, t, t.finished[i]))
  {
    var t := Next(k, s, a);
    forall i | 0 <= i < |t.queue| ensures JobOk(t, t.queue[i]) {
      if a == Take(w) { assert JobOk(s, s.queue[i + 1]); } else { assert JobOk(s, s.queue[i]); }
    }
    assert WorkerOk(k, s, s.workers[w]);
    forall i | 0 <= i < |t.finished| ensures ReplyOk(k, t, t.finished[i]) { if i < |s.finished| { assert ReplyOk(k, s, s.finished[i]); } }
  }

  lemma WorkerCarried(k: Config, s: Server, a: Step, w: nat)
    requires Inv(k, s) && Enabled(k, s, a) && ByWorker(a, w)
    ensures Carried(k, Next(k, s, a)) && Sound(k, Next(k, s, a))
  {
    var t := Next(k, s, a);
    WorkersCarried(k, s, a, w);
    QueueCarried(k, s, a, w);
    forall id: nat ensures SoundConn(k, t, id) { assert SoundConn(k, s, id); }
    forall i | 0 <= i < |Undelivered(t.reactor)| ensures ReplyOk(k, t, Undelivered(t.reactor)[i]) { assert ReplyOk(k, s, Undelivered(s.reactor)[i]); }
  }

  lemma TakeTallied(taken: seq<Job>, ran: seq<Job>, ws: seq<Worker>, w: nat, j: Job)
    requires Tallied(taken, ran, ws) && w < |ws| && !ws[w].Busy?
    ensures Tallied(taken + [j], ran, ws[w := Busy(j)])
  {
    var more, vs := taken + [j], ws[w := Busy(j)];
    forall i ensures TalliedOne(more, ran, vs, i) {
      assert TalliedOne(taken, ran, ws, i);
      RunningUpdate(ws, w, Busy(j), i);
    }
  }

  lemma RanTallied(taken: seq<Job>, ran: seq<Job>, ws: seq<Worker>, w: nat, x: Worker)
    requires Tallied(taken, ran, ws) && w < |ws| && ws[w].Busy? && !x.Busy?
    ensures Tallied(taken, ran + [ws[w].job], ws[w := x])
  {
    var more, vs := ran + [ws[w].job], ws[w := x];
    forall i ensures TalliedOne(taken, more, vs, i) {
      assert TalliedOne(taken, ran, ws, i);
      RunningUpdate(ws, w, x, i);
    }
  }

  lemma StillTallied(taken: seq<Job>, ran: seq<Job>, ws: seq<Worker>, w: nat, x: Worker)
    requires Tallied(taken, ran, ws) && w < |ws| && !ws[w].Busy? && !x.Busy?
    ensures Tallied(taken, ran, ws[w := x])
  {
    var vs := ws[w := x];
    forall i ensures TalliedOne(taken, ran, vs, i) {
      assert TalliedOne(taken, ran, ws, i);
      RunningUpdate(ws, w, x, i);
    }
  }

  lemma WorkerTallied(k: Config, s: Server, a: Step, w: nat)
    requires Tallied(s.taken, s.ran, s.workers) && Enabled(k, s, a) && ByWorker(a, w)
    ensures var t := Next(k, s, a); Tallied(t.taken, t.ran, t.workers)
  {
    var x := Next(k, s, a).workers[w];
    match a
    case Take(_) => TakeTallied(s.taken, s.ran, s.workers, w, s.queue[0]);
    case Handle(_) => RanTallied(s.taken, s.ran, s.workers, w, x);
    case Throw(_) => RanTallied(s.taken, s.ran, s.workers, w, x);
    case _ => StillTallied(s.taken, s.ran, s.workers, w, x);
  }

  lemma QueueTidy(k: Config, s: Server, a: Step, w: nat)
    requires Tidy(k, s) && Enabled(k, s, a) && ByWorker(a, w)
    ensures var t := Next(k, s, a);
            && |t.queue| <= k.queueCap && |t.finished| <= k.doneCap && t.submitted == t.taken + t.queue
            && (t.doneClosed ==> t.reactor == Stopped)
  {
    if a == Take(w) { assert s.queue == [s.queue[0]] + s.queue[1..]; }
  }

  lemma WorkerTidy(k: Config, s: Server, a: Step, w: nat)
    requires Tidy(k, s) && Enabled(k, s, a) && ByWorker(a, w)
    ensures Tidy(k, Next(k, s, a))
  {
    WorkerTallied(k, s, a, w);
    WakeUpStays(k, s, a, w);
    QueueTidy(k, s, a, w);
  }

  lemma WakeUpStays(k: Config, s: Server, a: Step, w: nat)
    requires (s.finished != [] && s.reactor != Stopped ==> WakeUpComing(s)) && Enabled(k, s, a) && ByWorker(a, w)
    ensures var t := Next(k, s, a); t.finished != [] && t.reactor != Stopped ==> WakeUpComing(t)
  {
    var t := Next(k, s, a);
    if s.finished != [] && s.reactor != Stopped && !s.tick && s.reactor != Woken {
      var v :| 0 <= v < |s.workers| && s.workers[v] == Ticking;
      assert a == Tick(w) || t.workers[v] == Ticking;
    }
    if a == PushReply(w) { assert t.workers[w] == Ticking; }
  }

  lemma InvKept(k: Config, s: Server, a: Step)
    requires Inv(k, s) && Enabled(k, s, a)
    ensures Inv(k, Next(k, s, a))
  {
    match a
    case Accept => AcceptKeeps(k, s);
    case Read(id, data, gone, e) => ReadKeeps(k, s, id, data, gone, e);
    case Write(id, e) => WriteKeeps(k, s, id, e);
    case HangUp(id) => HangUpKeeps(k, s, id);
    case Deliver(e, f) => DeliverKeeps(k, s, e, f);
    case Take(w) => WorkerCounted(k, s, a, w); WorkerCarried(k, s, a, w); WorkerTidy(k, s, a, w);
    case Handle(w) => WorkerCounted(k, s, a, w); WorkerCarried(k, s, a, w); WorkerTidy(k, s, a, w);
    case Throw(w) => WorkerCounted(k, s, a, w); WorkerCarried(k, s, a, w); WorkerTidy(k, s, a, w);
    case PushReply(w) => WorkerCounted(k, s, a, w); WorkerCarried(k, s, a, w); WorkerTidy(k, s, a, w);
    case GiveUp(w) => WorkerCounted(k, s, a, w); WorkerCarried(k, s, a, w); WorkerTidy(k, s, a, w);
    case Tick(w) => WorkerCounted(k, s, a, w); WorkerCarried(k, s, a, w); WorkerTidy(k, s, a, w);
    case Leave(w) => WorkerCounted(k, s, a, w); WorkerCarried(k, s, a, w); WorkerTidy(k, s, a, w);
    case Wake => ReactorKeeps(k, s, a);
    case Drain => ReactorKeeps(k, s, a);
    case Rest => ReactorKeeps(k, s, a);
    case Stop => ReactorKeeps(k, s, a);
    case CloseDone => ReactorKeeps(k, s, a);
    case ClosePool => ReactorKeeps(k, s, a);
  }

  // ----- whole runs -----

  function Started(workers: nat): Server {
    Server([], [], seq(workers, _ => Idle), [], false, Polling, false, false, {}, [], [], [])
  }

  ghost predicate IsRun(k: Config, s: Server, steps: seq<Step>)
    decreases |steps|
  {
    steps == [] || (Enabled(k, s, steps[0]) && IsRun(k, Next(k, s, steps[0]), steps[1..]))
  }

  ghost function After(k: Config, s: Server, steps: seq<Step>): Server
    requires IsRun(k, s, steps)
    decreases |steps|
  {
    if steps == [] then s else After(k, Next(k, s, steps[0]), steps[1..])
  }

  lemma {:induction false} NobodyWorks(n: nat, id: nat)
    ensures AtWorkers(seq(n, _ => Idle), id) == 0
  {
    if n > 0 {
      assert seq(n, _ => Idle)[1..] == seq(n - 1, _ => Idle);
      NobodyWorks(n - 1, id);
    }
  }

  lemma StartIsSound(k: Config, n: nat)
    ensures Inv(k, Started(n))
  {
    var s := Started(n);
    forall id: nat ensures SoundConn(k, s, id) { }
    forall id: nat ensures OneAtATime(s, id) { NobodyWorks(n, id); }
    forall j ensures TalliedOne([], [], s.workers, j) { NobodyRuns(s.workers, j); }
  }

  lemma {:induction false} RunsAreSound(k: Config, s: Server, steps: seq<Step>)
    requires Inv(k, s) && IsRun(k, s, steps)
    ensures Inv(k, After(k, s, steps))
    decreases |steps|
  {
    if steps != [] {
      InvKept(k, s, steps[0]);
      RunsAreSound(k, Next(k, s, steps[0]), steps[1..]);
    }
  }

  lemma RunIsSound(k: Config, n: nat, steps: seq<Step>)
    requires IsRun(k, Started(n), steps)
    ensures Inv(k, After(k, Started(n), steps))
  {
    StartIsSound(k, n);
    RunsAreSound(k, Started(n), steps);
  }

  /** In every run, as long as its request lines and headers stay below the caps, a connection's peer
      receives a prefix of the responses to the requests in the bytes it has sent, in their order, each the
      handler's or a pool's 503, and at the end perhaps that to a malformed request; nothing follows a
      response that says close. */
  lemma WireHoldsAnswersInOrder(k: Config, n: nat, steps: seq<Step>, id: nat)
    requires IsRun(k, Started(n), steps) && id < |After(k, Started(n), steps).conns|
    requires SessionBelow(FRESH, After(k, Started(n), steps).conns[id].got)
    ensures var c := After(k, Started(n), steps).conns[id];
            var t := RunBytes(FRESH, c.got);
            && c.wire <= Text(k, c.said)
            && (forall i :: 0 <= i < |c.said| && i < |c.asked| ==> i < |t.requests| && Answers(k, t.requests[i], c.said[i]))
            && (|c.said| > |c.asked| ==> |c.said| == |t.requests| + 1 && t.error == Some(c.said[|t.requests|]))
            && (forall i :: 0 <= i < |c.said| - 1 ==> c.said[i].keepAlive)
  {
    RunIsSound(k, n, steps);
    assert SoundConn(k, After(k, Started(n), steps), id);
    WireIsAnswers(k, After(k, Started(n), steps).conns[id]);
  }

  /** In every run, a connection has at most one request with the workers; an open one waits exactly when
      it has one, or when a worker gave up on it. */
  lemma OneRequestInFlight(k: Config, n: nat, steps: seq<Step>, id: nat)
    requires IsRun(k, Started(n), steps) && id < |After(k, Started(n), steps).conns|
    ensures var t := After(k, Started(n), steps);
            && InFlight(t, id) <= 1
            && (t.conns[id].open ==> (t.conns[id].awaiting <==> InFlight(t, id) == 1 || id in t.lost))
            && (id in t.lost ==> InFlight(t, id) == 0)
  {
    RunIsSound(k, n, steps);
    assert OneAtATime(After(k, Started(n), steps), id);
  }

  /** In every run, a completion that waits in the queue will be drained as long as the reactor runs: the
      eventfd is readable, or about to be written by a worker, or the reactor has read it and drains next.
      So no worker waits for room in vain. */
  lemma NoStrandedCompletion(k: Config, n: nat, steps: seq<Step>)
    requires IsRun(k, Started(n), steps)
    ensures var t := After(k, Started(n), steps);
            && |t.finished| <= k.doneCap
            && (t.finished != [] && t.reactor != Stopped ==> WakeUpComing(t))
            && (k.doneCap > 0 && t.reactor != Stopped ==> forall w :: 0 <= w < |t.workers| && t.workers[w].Posting? ==> Enabled(k, t, PushReply(w)) || WakeUpComing(t))
  {
    RunIsSound(k, n, steps);
  }

  lemma AllRan(t: Server)
    requires Tallied(t.taken, t.ran, t.workers) && forall w :: 0 <= w < |t.workers| ==> !t.workers[w].Busy?
    ensures multiset(t.ran) == multiset(t.taken)
  {
    forall j ensures multiset(t.ran)[j] == multiset(t.taken)[j] {
      assert TalliedOne(t.taken, t.ran, t.workers, j);
      NobodyRuns(t.workers, j);
    }
  }

  /** In every run, the pool takes requests in the order they were accepted, within its bound, and none is
      run twice; and once all workers have left, which is what stop waits for, every accepted request has
      been taken and run exactly once. */
  lemma PoolRunsAll(k: Config, n: nat, steps: seq<Step>)
    requires IsRun(k, Started(n), steps)
    ensures var t := After(k, Started(n), steps);
            && t.submitted == t.taken + t.queue && |t.queue| <= k.queueCap
            && multiset(t.ran) <= multiset(t.submitted)
            && (|t.workers| > 0 && (forall w :: 0 <= w < |t.workers| ==> t.workers[w] == Gone) ==>
                  t.poolClosed && t.taken == t.submitted && multiset(t.ran) == multiset(t.submitted))
  {
    RunIsSound(k, n, steps);
    var t := After(k, Started(n), steps);
    forall j ensures multiset(t.ran)[j] <= multiset(t.submitted)[j] {
      assert TalliedOne(t.taken, t.ran, t.workers, j) && multiset(t.submitted) == multiset(t.taken) + multiset(t.queue);
    }
    if |t.workers| > 0 && forall w :: 0 <= w < |t.workers| ==> t.workers[w] == Gone {
      assert WorkerOk(k, t, t.workers[0]);
      AllRan(t);
    }
  }

  /** The step is a callback of connection `id`. */
  predicate Touches(s: Server, a: Step, id: nat) {
    || (a.Read? && a.id == id) || (a.Write? && a.id == id) || (a.HangUp? && a.id == id)
    || (a.Deliver? && s.reactor.Delivering? && s.reactor.rest != [] && s.reactor.rest[0].id == id && id < |s.conns| && s.conns[id].open)
  }

  lemma Untouched(k: Config, s: Server, a: Step, id: nat)
    requires Enabled(k, s, a) && id < |s.conns| && !Touches(s, a, id)
    ensures id < |Next(k, s, a).conns| && Next(k, s, a).conns[id] == s.conns[id]
  {
    if a.Read? {
      var (c, req) := OnReadable(k, s.conns[a.id], a.data, a.gone, Room(k, s), a.e);
      assert Next(k, s, a) == Submitted(s, a.id, c, req);
    }
    if a.Deliver? { DeliveredElsewhere(k, s.(reactor := Delivering(s.reactor.rest[1..])), s.reactor.rest[0], a.e, a.f, id); }
  }

  lemma DeliveredElsewhere(k: Config, s: Server, x: Reply, e: Sent, f: Sent, id: nat)
    requires x.id < |s.conns| && id < |s.conns| && (x.id != id || !s.conns[id].open)
    ensures |Delivered(k, s, x, e, f).conns| == |s.conns| && Delivered(k, s, x, e, f).conns[id] == s.conns[id]
  {
    if s.conns[x.id].open {
      var (d, go) := OnResult(k, s.conns[x.id], x.resp, x.keep, e);
      if go {
        var (u, req) := Drive(k, d, Room(k, s), f);
        assert Delivered(k, s, x, e, f) == Submitted(s, x.id, u, req);
      }
    }
  }

  /** A drained completion is for a connection that waits, or is closed. */
  lemma ReplyIsAwaited(k: Config, s: Server)
    requires Carried(k, s) && s.reactor.Delivering? && s.reactor.rest != []
    ensures s.reactor.rest[0].id < |s.conns| && (s.conns[s.reactor.rest[0].id].open ==> s.conns[s.reactor.rest[0].id].awaiting)
  {
    assert ReplyOk(k, s, Undelivered(s.reactor)[0]);
  }

  /** kClosing is left only by closing, and a closed connection stays closed and says nothing more. */
  lemma ClosingOnlyCloses(k: Config, s: Server, a: Step, id: nat)
    requires Inv(k, s) && Enabled(k, s, a) && id < |s.conns|
    ensures id < |Next(k, s, a).conns|
    ensures var c, d := s.conns[id], Next(k, s, a).conns[id];
            && (c.open && c.state == Closing ==> (!d.open || d.state == Closing) && d.said == c.said)
            && (!c.open ==> d == c)
  {
    if Touches(s, a, id) {
      if s.conns[id].open && s.conns[id].state == Closing { TouchedClosing(k, s, a, id); }
    } else {
      Untouched(k, s, a, id);
    }
  }

  lemma TouchedClosing(k: Config, s: Server, a: Step, id: nat)
    requires Inv(k, s) && Enabled(k, s, a) && id < |s.conns| && Touches(s, a, id) && s.conns[id].open && s.conns[id].state == Closing
    ensures id < |Next(k, s, a).conns|
    ensures var d := Next(k, s, a).conns[id]; (!d.open || d.state == Closing) && d.said == s.conns[id].said
  {
    assert SoundConn(k, s, id);
    if a.Write? { OnWritableKeeps(k, s.conns[id], a.e); }
    if a.Deliver? { ReplyIsAwaited(k, s); }
  }

  /** Once a worker has given up on a connection's request, because the handler threw or the completion
      queue was closed, the connection waits for ever: it says nothing more until it is closed. */
  lemma GivenUpForEver(k: Config, s: Server, a: Step, id: nat)
    requires Inv(k, s) && Enabled(k, s, a) && id in s.lost
    ensures id < |s.conns| && id < |Next(k, s, a).conns| && id in Next(k, s, a).lost
    ensures Next(k, s, a).conns[id].said == s.conns[id].said
    ensures s.conns[id].open ==> s.conns[id].awaiting && InFlight(s, id) == 0
  {
    assert OneAtATime(s, id);
    if Touches(s, a, id) { TouchedInVain(k, s, a, id); } else { Untouched(k, s, a, id); }
  }

  lemma TouchedInVain(k: Config, s: Server, a: Step, id: nat)
    requires Inv(k, s) && Enabled(k, s, a) && id in s.lost && Touches(s, a, id)
    ensures id < |s.conns| && id < |Next(k, s, a).conns| && Next(k, s, a).conns[id].said == s.conns[id].said
  {
    assert OneAtATime(s, id) && SoundConn(k, s, id);
    if a.Read? { OnReadableKeeps(k, s.conns[id], a.data, a.gone, Room(k, s), a.e); }
  }
}
