/** Space reservation in the log: which file-system operations run, how many blocks each has added,
    who sleeps in begin_op. Every step below happens under log.lock, so any interleaving of processes
    is a sequence of these steps. (projects/07-xv6plus/kernel/log.c) */
module LogSpace {
  import opened LogImage

  type Pid = nat

  /** `active` gives, for each operation between begin_op and end_op, how many blocks it has added to
      the log; `n` is log.lh.n and |active| is log.outstanding. */
  datatype Ops = Ops(active: map<Pid, nat>, n: nat, committing: bool, asleep: set<Pid>)

  const IDLE := Ops(map[], 0, false, {})

  datatype Step =
    | Begin(p: Pid)          // one turn of begin_op's loop: enters, or goes to sleep
    | Add(p: Pid)            // log_write of a block the log does not hold yet
    | Again(p: Pid)          // log_write of a block it holds
    | End(p: Pid)            // end_op up to the release of the lock
    | Committed              // commit clears lh.n
    | Done                   // end_op after commit

  /** The condition on which begin_op goes to sleep. */
  predicate Blocked(s: Ops) {
    s.committing || s.n + (|s.active| + 1) * MAXOPBLOCKS > LOGBLOCKS
  }

  /** log_write looks at the length first: with a full log it panics, "too big a transaction", whether or
      not the log holds the block. */
  predicate Panics(s: Ops) {
    s.n >= LOGBLOCKS
  }

  /** A sleeping process takes no step; an operation adds at most MAXOPBLOCKS blocks. */
  predicate Enabled(s: Ops, a: Step) {
    match a
    case Begin(p) => p !in s.active && p !in s.asleep
    case Add(p) => p in s.active && s.active[p] < MAXOPBLOCKS
    case Again(p) => p in s.active && !Panics(s)
    case End(p) => p in s.active
    case Committed => s.committing
    case Done => s.committing && s.n == 0
  }

  function Next(s: Ops, a: Step): Ops
    requires Enabled(s, a)
  {
    match a
    case Begin(p) => if Blocked(s) then s.(asleep := s.asleep + {p}) else s.(active := s.active[p := 0])
    case Add(p) => s.(active := s.active[p := s.active[p] + 1], n := s.n + 1)
    case Again(p) => s
    case End(p) =>
      var rest := s.active - {p};
      if rest == map[] then s.(active := rest, committing := true) else s.(active := rest, asleep := {})
    case Committed => s.(n := 0)
    case Done => s.(committing := false, asleep := {})
  }

  /** What the running operations may still add. */
  ghost function Room(active: map<Pid, nat>): int
    decreases |active|
  {
    if active == map[] then 0
    else
      var p :| p in active;
      MAXOPBLOCKS - active[p] + Room(active - {p})
  }

  lemma {:induction false} RoomWithout(active: map<Pid, nat>, p: Pid)
    requires p in active
    ensures Room(active) == MAXOPBLOCKS - active[p] + Room(active - {p})
    decreases |active|
  {
    var q :| q in active && Room(active) == MAXOPBLOCKS - active[q] + Room(active - {q});
    if q != p {
      RoomWithout(active - {q}, p);
      RoomWithout(active - {p}, q);
      assert active - {q} - {p} == active - {p} - {q};
    }
  }

  lemma RoomWith(active: map<Pid, nat>, p: Pid, k: nat)
    requires p !in active
    ensures Room(active[p := k]) == Room(active) + MAXOPBLOCKS - k
  {
    RoomWithout(active[p := k], p);
    assert active[p := k] - {p} == active;
  }

  lemma {:induction false} RoomBound(active: map<Pid, nat>)
    requires forall p :: p in active ==> active[p] <= MAXOPBLOCKS
    ensures 0 <= Room(active) <= |active| * MAXOPBLOCKS
    decreases |active|
  {
    if active != map[] {
      var p :| p in active && Room(active) == MAXOPBLOCKS - active[p] + Room(active - {p});
      RoomBound(active - {p});
      assert |active - {p}| == |active| - 1 by { assert (active - {p}).Keys == active.Keys - {p}; }
    }
  }

  /** Blocks in the log and blocks still to come fit; the log is empty when nobody uses it; and a
      process sleeps only while begin_op would still send it to sleep. */
  ghost predicate Inv(s: Ops) {
    && (forall p :: p in s.active ==> s.active[p] <= MAXOPBLOCKS)
    && s.n + Room(s.active) <= LOGBLOCKS
    && (s.committing ==> s.active == map[])
    && (s.active == map[] && !s.committing ==> s.n == 0)
    && s.asleep !! s.active.Keys
    && (s.asleep != {} ==> Blocked(s))
  }

  lemma BeginKeeps(s: Ops, p: Pid)
    requires Inv(s) && Enabled(s, Begin(p))
    ensures Inv(Next(s, Begin(p)))
  {
    if !Blocked(s) {
      RoomBound(s.active);
      RoomWith(s.active, p, 0);
    }
  }

  lemma RoomAfterAdd(active: map<Pid, nat>, p: Pid)
    requires p in active
    ensures var more := active[p := active[p] + 1];
      Room(more) == Room(active) - 1 && more.Keys == active.Keys && |more| == |active|
  {
    var more := active[p := active[p] + 1];
    RoomWithout(active, p);
    RoomWith(active - {p}, p, active[p] + 1);
    assert (active - {p})[p := active[p] + 1] == more;
    assert more.Keys == active.Keys;
  }

  lemma AddKeeps(s: Ops, p: Pid)
    requires Inv(s) && Enabled(s, Add(p))
    ensures Inv(Next(s, Add(p)))
  {
    RoomAfterAdd(s.active, p);
  }

  lemma EndKeeps(s: Ops, p: Pid)
    requires Inv(s) && Enabled(s, End(p))
    ensures Inv(Next(s, End(p)))
  {
    RoomWithout(s.active, p);
  }

  lemma InvKept(s: Ops, a: Step)
    requires Inv(s) && Enabled(s, a)
    ensures Inv(Next(s, a))
  {
    match a
    case Begin(p) => BeginKeeps(s, p);
    case Add(p) => AddKeeps(s, p);
    case Again(p) =>
    case End(p) => EndKeeps(s, p);
    case Committed =>
    case Done =>
  }

  ghost predicate IsRun(steps: seq<Step>)
    decreases |steps|, 0
  {
    steps == [] || (IsRun(steps[..|steps| - 1]) && Enabled(After(steps[..|steps| - 1]), steps[|steps| - 1]))
  }

  ghost function After(steps: seq<Step>): Ops
    requires IsRun(steps)
    decreases |steps|, 1
  {
    if steps == [] then IDLE else Next(After(steps[..|steps| - 1]), steps[|steps| - 1])
  }

  lemma {:induction false} InvEverywhere(steps: seq<Step>)
    requires IsRun(steps)
    ensures Inv(After(steps))
    decreases |steps|
  {
    if steps != [] {
      InvEverywhere(steps[..|steps| - 1]);
      InvKept(After(steps[..|steps| - 1]), steps[|steps| - 1]);
    }
  }

  /** In every interleaving: while an operation has added fewer than MAXOPBLOCKS blocks, its log_write
      does not panic, be the block new or not. */
  lemma SafeBelowTheBound(steps: seq<Step>, p: Pid)
    requires IsRun(steps) && p in After(steps).active && After(steps).active[p] < MAXOPBLOCKS
    ensures !Panics(After(steps))
  {
    InvEverywhere(steps);
    RoomForOne(After(steps), p);
  }

  lemma RoomForOne(s: Ops, p: Pid)
    requires Inv(s) && Enabled(s, Add(p))
    ensures s.n < LOGBLOCKS
  {
    RoomWithout(s.active, p);
    RoomBound(s.active - {p});
  }

  ghost predicate Reaches(steps: seq<Step>, s: Ops) {
    IsRun(steps) && After(steps) == s
  }

  lemma OneStep(steps: seq<Step>, s: Ops, a: Step) returns (more: seq<Step>)
    requires Reaches(steps, s) && Enabled(s, a)
    ensures Reaches(more, Next(s, a))
  {
    Extend(steps, a);
    more := steps + [a];
  }

  /** k blocks more for operation p. */
  function Filled(s: Ops, p: Pid, k: nat): Ops
    requires p in s.active
  {
    s.(active := s.active[p := s.active[p] + k], n := s.n + k)
  }

  lemma {:induction false} AddMany(steps: seq<Step>, s: Ops, p: Pid, k: nat) returns (more: seq<Step>)
    requires Reaches(steps, s) && p in s.active && s.active[p] + k <= MAXOPBLOCKS
    ensures Reaches(more, Filled(s, p, k))
    decreases k
  {
    if k == 0 {
      assert s.active[p := s.active[p]] == s.active;
      more := steps;
    } else {
      more := AddMany(steps, s, p, k - 1);
      more := OneStep(more, Filled(s, p, k - 1), Add(p));
      assert Next(Filled(s, p, k - 1), Add(p)).active == Filled(s, p, k).active;
    }
  }

  /** Three operations may begin while nothing has been added. */
  lemma ThreeBegin(a: Pid, b: Pid, c: Pid) returns (steps: seq<Step>, s: Ops)
    requires a != b && b != c && a != c
    ensures Reaches(steps, s) && s.n == 0 && s.active.Keys == {a, b, c} && s.active[a] == s.active[b] == s.active[c] == 0
  {
    steps := OneStep([], IDLE, Begin(a));
    steps := OneStep(steps, Ops(map[a := 0], 0, false, {}), Begin(b));
    s := Ops(map[a := 0, b := 0], 0, false, {});
    steps := OneStep(steps, s, Begin(c));
    s := Next(s, Begin(c));
  }

  /** Three operations that use all they may fill the log. */
  lemma FullLog(a: Pid, b: Pid, c: Pid) returns (steps: seq<Step>, s: Ops)
    requires a != b && b != c && a != c
    ensures Reaches(steps, s) && s.n == LOGBLOCKS
    ensures s.active.Keys == {a, b, c} && s.active[a] == s.active[b] == s.active[c] == MAXOPBLOCKS
  {
    steps, s := ThreeBegin(a, b, c);
    steps := AddMany(steps, s, a, MAXOPBLOCKS);
    s := Filled(s, a, MAXOPBLOCKS);
    steps := AddMany(steps, s, b, MAXOPBLOCKS);
    s := Filled(s, b, MAXOPBLOCKS);
    steps := AddMany(steps, s, c, MAXOPBLOCKS);
    s := Filled(s, c, MAXOPBLOCKS);
  }

  /** In that run, log_write by p does not panic if p is an operation that has added k blocks. */
  ghost predicate SafeIn(steps: seq<Step>, p: Pid, k: nat) {
    IsRun(steps) && p in After(steps).active && After(steps).active[p] == k ==> !Panics(After(steps))
  }

  /** How many blocks an operation may have added for its next log_write to be safe in every
      interleaving, even one of a block that the log holds already: fewer than MAXOPBLOCKS. */
  lemma LogWriteIsSafeIffBelowTheBound(p: Pid, k: nat)
    requires k <= MAXOPBLOCKS
    ensures (forall steps {:trigger SafeIn(steps, p, k)} :: SafeIn(steps, p, k)) <==> k < MAXOPBLOCKS
  {
    if k < MAXOPBLOCKS {
      forall steps ensures SafeIn(steps, p, k) {
        if IsRun(steps) && p in After(steps).active && After(steps).active[p] == k { SafeBelowTheBound(steps, p); }
      }
    } else {
      var steps, s := FullLog(p, p + 1, p + 2);
      assert !SafeIn(steps, p, k);
    }
  }

  /** The log is full only once every running operation has used all it may. */
  lemma FullLogMeansAllSpent(steps: seq<Step>, p: Pid)
    requires IsRun(steps) && Panics(After(steps)) && p in After(steps).active
    ensures After(steps).n == LOGBLOCKS && After(steps).active[p] == MAXOPBLOCKS
  {
    InvEverywhere(steps);
    RoomBound(After(steps).active);
    if After(steps).active[p] < MAXOPBLOCKS { SafeBelowTheBound(steps, p); }
  }

  /** end_op never finds a commit in progress. */
  lemma EndFindsNoCommit(steps: seq<Step>, p: Pid)
    requires IsRun(steps) && Enabled(After(steps), End(p))
    ensures !After(steps).committing
  {
    InvEverywhere(steps);
  }

  /** In every interleaving: nobody sleeps in begin_op who could go ahead, so nobody sleeps while the
      log is idle. */
  lemma NoLostWakeup(steps: seq<Step>)
    requires IsRun(steps) && After(steps).asleep != {}
    ensures Blocked(After(steps))
    ensures After(steps).active != map[] || After(steps).committing
  {
    InvEverywhere(steps);
  }

  /** The commit that ends a quiet spell: afterwards the log is idle and everybody is awake. */
  lemma CommitEnds(steps: seq<Step>)
    requires IsRun(steps) && After(steps).committing && After(steps).active == map[]
    ensures IsRun(steps + [Committed] + [Done]) && After(steps + [Committed] + [Done]) == IDLE
  {
    Extend(steps, Committed);
    Extend(steps + [Committed], Done);
  }

  lemma EndShrinks(s: Ops, p: Pid)
    requires p in s.active
    ensures |Next(s, End(p)).active| < |s.active| && (Next(s, End(p)).active == map[] ==> Next(s, End(p)).committing)
  {
    assert (s.active - {p}).Keys == s.active.Keys - {p};
  }

  /** Steps that only end what is running. */
  predicate Winding(more: seq<Step>) {
    more == [] || (!more[0].Begin? && !more[0].Add? && !more[0].Again? && Winding(more[1..]))
  }

  lemma FirstThen(steps: seq<Step>, a: Step, rest: seq<Step>)
    requires !a.Begin? && !a.Add? && !a.Again? && Winding(rest)
    ensures steps + ([a] + rest) == steps + [a] + rest && Winding([a] + rest)
  {
    assert ([a] + rest)[1..] == rest;
  }

  /** Ending the running operations, one after the other, and then the commit, wakes everybody. */
  lemma {:induction false} SleepersGetTheirTurn(steps: seq<Step>) returns (more: seq<Step>)
    requires IsRun(steps) && (After(steps).active != map[] || After(steps).committing)
    ensures IsRun(steps + more) && After(steps + more) == IDLE && Winding(more)
    decreases |After(steps).active|, 1
  {
    InvEverywhere(steps);
    if After(steps).active == map[] {
      more := [Committed] + [Done];
      CommitEnds(steps);
      FirstThen(steps + [Committed], Done, []);
      FirstThen(steps, Committed, [Done]);
    } else {
      more := EndOne(steps);
    }
  }

  lemma {:induction false} EndOne(steps: seq<Step>) returns (more: seq<Step>)
    requires IsRun(steps) && After(steps).active != map[]
    ensures IsRun(steps + more) && After(steps + more) == IDLE && Winding(more)
    decreases |After(steps).active|, 0
  {
    var p :| p in After(steps).active;
    Extend(steps, End(p));
    EndShrinks(After(steps), p);
    var rest := SleepersGetTheirTurn(steps + [End(p)]);
    more := [End(p)] + rest;
    FirstThen(steps, End(p), rest);
  }

  lemma Extend(steps: seq<Step>, a: Step)
    requires IsRun(steps) && Enabled(After(steps), a)
    ensures IsRun(steps + [a]) && After(steps + [a]) == Next(After(steps), a)
  {
    assert (steps + [a])[..|steps|] == steps;
  }
}
