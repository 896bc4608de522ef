/** Processes, from fork to wait, on several harts: who runs where, who is whose parent, and why nobody
    sleeps in wait while a child is a zombie. Every step is a critical section, or the part of one up to
    the next lock it needs; any interleaving of harts is a sequence of steps.
    (projects/07-xv6plus/kernel/proc.c) */
module LifeCycle {

  datatype Option<T> = None | Some(value: T)

  datatype State = UNUSED | USED | SLEEPING | RUNNABLE | RUNNING | ZOMBIE

  /** What a process sleeps on: nothing, its own entry (in kwait), or something else. */
  datatype Chan = NoChan | OwnChan | OtherChan(n: nat)

  /** Where the kernel thread of a process stands, between two steps. */
  datatype Pc =
    | Idle                        // in none of the functions below
    | Forked(np: nat)             // kfork: the child's slot is taken
    | Parented(np: nat)           // kfork: the child's parent is set
    | Exiting(i: nat)             // kexit: reparent has seen the slots below i
    | Handing(i: nat, j: nat)     // reparent gave slot i to init, and wakeup(init) has seen the slots below j
    | Calling(j: nat)             // wakeup(parent) has seen the slots below j
    | Dying                       // kexit: before taking its own lock
    | Dead                        // kexit: a zombie
    | Scanning(i: nat, kids: bool)  // kwait: the slots below i have been looked at
    | Dozing                      // sleep in kwait: wait_lock released, own lock held, not asleep yet
    | Asleep                      // sleep in kwait: asleep, or switched back in and not out of sleep yet
    | Rejoining                   // out of sleep, before taking wait_lock again
    | AsleepOther                 // sleep anywhere else

  /** `rest` says that the thread is in yield, or has never run; `on` is the hart whose proc names this
      process; `locked` says that its lock is held between steps; `maker` is the process whose kfork is
      setting it up. */
  datatype Proc = Proc(state: State, chan: Chan, parent: Option<nat>, killed: bool, pc: Pc, rest: bool, locked: bool, on: Option<nat>, maker: Option<nat>)

  const FREE := Proc(UNUSED, NoChan, None, false, Idle, true, false, None, None)

  /** `cpus` is each hart's proc field, `waiter` the process that holds wait_lock. */
  datatype Table = Table(procs: seq<Proc>, cpus: seq<Option<nat>>, waiter: Option<nat>, init: nat)

  datatype Step =
    | Alloc(p: nat, np: nat)
    | ForkFails(p: nat, np: nat)
    | SetParent(p: nat)
    | Launch(p: nat)
    | BeginExit(p: nat)
    | Reparent(p: nat)
    | WakeInit(p: nat)
    | Reparented(p: nat)
    | WakeParent(p: nat)
    | Called(p: nat)
    | Die(p: nat)
    | BeginWait(p: nat)
    | Scan(p: nat, reap: bool)
    | GiveUp(p: nat)
    | Doze(p: nat)
    | FallAsleep(p: nat)
    | SleepOther(p: nat, n: nat)
    | Yield(p: nat)
    | SwitchOut(c: nat)
    | SwitchIn(c: nat, q: nat)
    | Release(p: nat)
    | Kill(q: nat)
    | WakeOther(q: nat, n: nat)

  // ----- the steps -----

  /** Process p executes on some hart and is at `pc`. */
  predicate Runs(s: Table, p: nat) {
    p < |s.procs| && s.procs[p].on.Some? && s.procs[p].state == RUNNING
  }

  predicate Free(s: Table, p: nat) {
    Runs(s, p) && !s.procs[p].locked
  }

  predicate At(s: Table, p: nat, pc: Pc) {
    Free(s, p) && s.procs[p].pc == pc
  }

  predicate Unlocked(s: Table, q: nat) {
    q < |s.procs| && !s.procs[q].locked
  }

  /** Where no spin lock is held, a timer interrupt can make a thread yield. */
  predicate Interruptible(pc: Pc) {
    pc == Idle || pc.Forked? || pc.Parented? || pc == Rejoining
  }

  /** Where a thread goes on once it is back from sched and has released its lock. */
  function Resumed(pc: Pc): Pc {
    if pc == Asleep then Rejoining else if pc == AsleepOther then Idle else pc
  }

  predicate Enabled(s: Table, a: Step) {
    match a
    case Alloc(p, np) => At(s, p, Idle) && Unlocked(s, np) && s.procs[np].state == UNUSED
    case ForkFails(p, np) => At(s, p, Idle) && Unlocked(s, np) && s.procs[np].state == UNUSED
    case SetParent(p) => Free(s, p) && s.procs[p].pc.Forked? && s.procs[p].pc.np < |s.procs| && s.waiter == None
    case Launch(p) => Free(s, p) && s.procs[p].pc.Parented? && Unlocked(s, s.procs[p].pc.np)
    case BeginExit(p) => At(s, p, Idle) && p != s.init && s.waiter == None
    case Reparent(p) => Free(s, p) && s.procs[p].pc.Exiting? && s.procs[p].pc.i < |s.procs|
    case WakeInit(p) => Free(s, p) && s.procs[p].pc.Handing? && (s.procs[p].pc.j < |s.procs| && s.procs[p].pc.j != p ==> Unlocked(s, s.procs[p].pc.j))
    case Reparented(p) => Free(s, p) && s.procs[p].pc.Exiting? && s.procs[p].pc.i >= |s.procs|
    case WakeParent(p) => Free(s, p) && s.procs[p].pc.Calling? && s.procs[p].pc.j < |s.procs| && (s.procs[p].pc.j != p ==> Unlocked(s, s.procs[p].pc.j))
    case Called(p) => Free(s, p) && s.procs[p].pc.Calling? && s.procs[p].pc.j >= |s.procs|
    case Die(p) => At(s, p, Dying)
    case BeginWait(p) => (At(s, p, Idle) || At(s, p, Rejoining)) && s.waiter == None
    case Scan(p, _) => Free(s, p) && s.procs[p].pc.Scanning? && s.procs[p].pc.i < |s.procs|
                       && (s.procs[s.procs[p].pc.i].parent == Some(p) ==> Unlocked(s, s.procs[p].pc.i))
    case GiveUp(p) => Free(s, p) && s.procs[p].pc.Scanning? && s.procs[p].pc.i >= |s.procs| && (!s.procs[p].pc.kids || s.procs[p].killed)
    case Doze(p) => Free(s, p) && s.procs[p].pc.Scanning? && s.procs[p].pc.i >= |s.procs| && s.procs[p].pc.kids
    case FallAsleep(p) => Runs(s, p) && s.procs[p].pc == Dozing
    case SleepOther(p, _) => At(s, p, Idle)
    case Yield(p) => Free(s, p) && Interruptible(s.procs[p].pc)
    case SwitchOut(c) =>
      && c < |s.cpus| && s.cpus[c].Some? && s.cpus[c].value < |s.procs|
      && s.procs[s.cpus[c].value].locked && s.procs[s.cpus[c].value].state != RUNNING
    case SwitchIn(c, q) => c < |s.cpus| && s.cpus[c] == None && Unlocked(s, q) && s.procs[q].state == RUNNABLE
    case Release(p) => Runs(s, p) && s.procs[p].locked && s.procs[p].pc != Dozing
    case Kill(q) => Unlocked(s, q)
    case WakeOther(q, _) => Unlocked(s, q)
  }

  function With(s: Table, p: nat, x: Proc): Table
    requires p < |s.procs|
  {
    s.(procs := s.procs[p := x])
  }

  /** wakeup(chan of q) at slot j, by p: only the process itself ever sleeps on its own entry. */
  function Woken(s: Table, p: nat, j: nat, q: Option<nat>): Table
    requires j < |s.procs|
  {
    if j != p && q == Some(j) && s.procs[j].state == SLEEPING && s.procs[j].chan == OwnChan
    then With(s, j, s.procs[j].(state := RUNNABLE)) else s
  }

  function Moved(s: Table, p: nat, pc: Pc): Table
    requires p < |s.procs|
  {
    With(s, p, s.procs[p].(pc := pc))
  }

  function Next(s: Table, a: Step): Table
    requires Enabled(s, a)
  {
    match a
    case Alloc(p, np) => Moved(With(s, np, s.procs[np].(state := USED, maker := Some(p))), p, Forked(np))
    case ForkFails(p, np) => With(s, np, FREE)
    case SetParent(p) =>
      var np := s.procs[p].pc.np;
      Moved(With(s, np, s.procs[np].(parent := Some(p))), p, Parented(np))
    case Launch(p) =>
      var np := s.procs[p].pc.np;
      Moved(With(s, np, s.procs[np].(state := RUNNABLE, maker := None)), p, Idle)
    case BeginExit(p) => Moved(s, p, Exiting(0)).(waiter := Some(p))
    case Reparent(p) =>
      var i := s.procs[p].pc.i;
      if s.procs[i].parent == Some(p) then Moved(With(s, i, s.procs[i].(parent := Some(s.init))), p, Handing(i, 0))
      else Moved(s, p, Exiting(i + 1))
    case WakeInit(p) =>
      var i, j := s.procs[p].pc.i, s.procs[p].pc.j;
      if j < |s.procs| then Moved(Woken(s, p, j, Some(s.init)), p, Handing(i, j + 1)) else Moved(s, p, Exiting(i + 1))
    case Reparented(p) => Moved(s, p, Calling(0))
    case WakeParent(p) =>
      var j := s.procs[p].pc.j;
      Moved(Woken(s, p, j, s.procs[p].parent), p, Calling(j + 1))
    case Called(p) => Moved(s, p, Dying)
    case Die(p) => With(s, p, s.procs[p].(state := ZOMBIE, pc := Dead, locked := true)).(waiter := None)
    case BeginWait(p) => Moved(s, p, Scanning(0, false)).(waiter := Some(p))
    case Scan(p, reap) =>
      var i := s.procs[p].pc.i;
      if s.procs[i].parent == Some(p) then
        if s.procs[i].state == ZOMBIE then Moved(if reap then With(s, i, FREE) else s, p, Idle).(waiter := None)
        else Moved(s, p, Scanning(i + 1, true))
      else Moved(s, p, Scanning(i + 1, s.procs[p].pc.kids))
    case GiveUp(p) => Moved(s, p, Idle).(waiter := None)
    case Doze(p) => With(s, p, s.procs[p].(pc := Dozing, locked := true)).(waiter := None)
    case FallAsleep(p) => With(s, p, s.procs[p].(pc := Asleep, state := SLEEPING, chan := OwnChan))
    case SleepOther(p, n) => With(s, p, s.procs[p].(pc := AsleepOther, state := SLEEPING, chan := OtherChan(n), locked := true))
    case Yield(p) => With(s, p, s.procs[p].(rest := true, state := RUNNABLE, locked := true))
    case SwitchOut(c) =>
      var p := s.cpus[c].value;
      With(s, p, s.procs[p].(on := None, locked := false)).(cpus := s.cpus[c := None])
    case SwitchIn(c, q) => With(s, q, s.procs[q].(state := RUNNING, on := Some(c), locked := true)).(cpus := s.cpus[c := Some(q)])
    case Release(p) => With(s, p, s.procs[p].(chan := NoChan, locked := false, rest := false, pc := Resumed(s.procs[p].pc)))
    case Kill(q) => With(s, q, s.procs[q].(killed := true, state := if s.procs[q].state == SLEEPING then RUNNABLE else s.procs[q].state))
    case WakeOther(q, n) =>
      if s.procs[q].state == SLEEPING && s.procs[q].chan == OtherChan(n) then With(s, q, s.procs[q].(state := RUNNABLE)) else s
  }

  // ----- the invariant -----

  predicate HoldsWait(pc: Pc) {
    Leaving(pc) || pc.Scanning?
  }

  /** On the way out: holding wait_lock in kexit. */
  predicate Leaving(pc: Pc) {
    pc.Exiting? || pc.Handing? || pc.Calling? || pc.Dying?
  }

  /** Not running yet, or no longer there. */
  predicate Unborn(x: Proc) {
    x.state == UNUSED || x.state == USED
  }

  /** A thread that is switched out stands at one of these points. */
  predicate Parked(x: Proc) {
    x.rest || x.pc == Asleep || x.pc == AsleepOther || x.pc == Dead
  }

  /** Hart, lock, state and place in the code of one process go together. */
  predicate Placed(s: Table, p: nat) {
    p < |s.procs| ==>
      var x := s.procs[p];
      && (x.on.Some? ==> x.on.value < |s.cpus| && s.cpus[x.on.value] == Some(p))
      && (x.locked ==> x.on.Some?)
      && (x.state == RUNNING ==> x.on.Some?)
      && (x.on.Some? ==> x.state == RUNNING || x.locked)
      && (x.state == ZOMBIE <==> x.pc == Dead)
      && (x.state == SLEEPING ==> x.pc == Asleep || x.pc == AsleepOther)
      && (x.chan == OwnChan <==> x.pc == Asleep)
      && (!Parked(x) ==> x.state == RUNNING) && (x.rest ==> Interruptible(x.pc))
      && (x.state == RUNNING ==> (x.locked <==> Parked(x) || x.pc == Dozing))
      && (Unborn(x) ==> x.on == None && x.pc == Idle && x.rest)
      && (x.state == UNUSED ==> x.parent == None)
      && (HoldsWait(x.pc) <==> s.waiter == Some(p))
      && (x.pc.Forked? ==> Made(s, p, x.pc.np) && s.procs[x.pc.np].parent == None)
      && (x.pc.Parented? ==> Made(s, p, x.pc.np) && s.procs[x.pc.np].parent == Some(p))
      && (Unborn(x) || p == s.init || x.parent.Some?)
      && (x.state == USED ==> Nursed(s, p))
  }

  /** A child that a kfork is setting up has no parent yet, or the forking process for parent. */
  predicate Nursed(s: Table, np: nat)
    requires np < |s.procs|
  {
    var x := s.procs[np];
    && x.maker.Some? && x.maker.value < |s.procs| && (x.parent == None || x.parent == x.maker)
    && (s.procs[x.maker.value].pc == Forked(np) || s.procs[x.maker.value].pc == Parented(np))
  }

  /** `np` is the child that p's kfork is setting up. */
  predicate Made(s: Table, p: nat, np: nat) {
    np < |s.procs| && np != p && s.procs[np].state == USED && s.procs[np].maker == Some(p)
  }

  predicate HartOk(s: Table, c: nat) {
    c < |s.cpus| && s.cpus[c].Some? ==> s.cpus[c].value < |s.procs| && s.procs[s.cpus[c].value].on == Some(c)
  }

  /** A parent is neither a zombie nor unused; a process on its way out has no children among the slots
      it has dealt with. */
  predicate Raised(s: Table, q: nat) {
    q < |s.procs| && s.procs[q].parent.Some? ==>
      var r := s.procs[q].parent.value;
      && r < |s.procs| && s.procs[r].state != ZOMBIE && !Unborn(s.procs[r])
      && (s.procs[r].pc.Exiting? ==> s.procs[r].pc.i <= q)
      && (s.procs[r].pc.Handing? ==> s.procs[r].pc.i < q)
      && !s.procs[r].pc.Calling? && !s.procs[r].pc.Dying?
  }

  /** In sleep in kwait, or about to be. */
  predicate Drowsy(s: Table, q: nat) {
    q < |s.procs| && (s.procs[q].pc == Dozing || (s.procs[q].state == SLEEPING && s.procs[q].chan == OwnChan))
  }

  /** The holder of wait_lock is about to wake init. */
  predicate WakePending(s: Table) {
    s.waiter.Some? && s.waiter.value < |s.procs| && s.procs[s.waiter.value].pc.Handing? && s.procs[s.waiter.value].pc.j <= s.init
  }

  /** A zombie's parent is not asleep in kwait, unless it is init and about to be woken; and a scan of
      kwait has not passed a zombie child. */
  predicate Noticed(s: Table, z: nat) {
    z < |s.procs| && s.procs[z].state == ZOMBIE && s.procs[z].parent.Some? ==>
      var q := s.procs[z].parent.value;
      && (Drowsy(s, q) ==> q == s.init && WakePending(s))
      && (q < |s.procs| && s.procs[q].pc.Scanning? ==> s.procs[q].pc.i <= z)
  }

  /** Once its wakeup has passed the parent, a dying process has a parent that is not asleep in kwait. */
  predicate Announced(s: Table, p: nat) {
    p < |s.procs| && s.procs[p].parent.Some? && (s.procs[p].pc.Calling? || s.procs[p].pc == Dying) ==>
      var q := s.procs[p].parent.value;
      (s.procs[p].pc.Calling? ==> q < s.procs[p].pc.j) ==> !Drowsy(s, q)
  }

  predicate InitOk(s: Table) {
    && s.init < |s.procs| && !Unborn(s.procs[s.init]) && s.procs[s.init].state != ZOMBIE
    && !Leaving(s.procs[s.init].pc)
    && (s.waiter.Some? ==> s.waiter.value < |s.procs|)
  }

  /** Who runs where. */
  ghost predicate Seated(s: Table) {
    && InitOk(s)
    && (forall p: nat {:trigger Placed(s, p)} :: Placed(s, p))
    && (forall c: nat {:trigger HartOk(s, c)} :: HartOk(s, c))
  }

  /** Who is whose parent, and who is told of a death. */
  ghost predicate Tended(s: Table) {
    && (forall q: nat {:trigger Raised(s, q)} :: Raised(s, q))
    && (forall z: nat {:trigger Noticed(s, z)} :: Noticed(s, z))
    && (forall p: nat {:trigger Announced(s, p)} :: Announced(s, p))
  }

  ghost predicate Inv(s: Table) {
    Seated(s) && Tended(s)
  }

  // ----- steps that do not touch the family -----

  /** Between s and t process q keeps its parent, does not become drowsy, a zombie or unborn, and stays
      where it is if it holds wait_lock. */
  predicate Tame(s: Table, t: Table, q: nat) {
    q < |s.procs| == |t.procs| ==>
      var x, y := s.procs[q], t.procs[q];
      && y.parent == x.parent
      && (Drowsy(t, q) ==> Drowsy(s, q)) && (y.state == ZOMBIE <==> x.state == ZOMBIE) && (Unborn(y) ==> Unborn(x))
      && (HoldsWait(y.pc) || HoldsWait(x.pc) ==> y.pc == x.pc)
  }

  ghost predicate AllTame(s: Table, t: Table) {
    && |t.procs| == |s.procs| && t.init == s.init && t.waiter == s.waiter
    && (forall q: nat {:trigger Tame(s, t, q)} :: Tame(s, t, q))
  }

  lemma TameKeeps(s: Table, t: Table)
    requires Inv(s) && AllTame(s, t)
    ensures Tended(t)
  {
    forall q: nat ensures Raised(t, q) {
      assert Raised(s, q) && Tame(s, t, q);
      if q < |s.procs| && s.procs[q].parent.Some? { assert Tame(s, t, s.procs[q].parent.value); }
    }
    TamePending(s, t);
    forall z: nat ensures Noticed(t, z) {
      assert Noticed(s, z) && Tame(s, t, z);
      if z < |s.procs| && s.procs[z].parent.Some? { assert Tame(s, t, s.procs[z].parent.value); }
    }
    forall q: nat ensures Announced(t, q) {
      assert Announced(s, q) && Tame(s, t, q);
      if q < |s.procs| && s.procs[q].parent.Some? { assert Tame(s, t, s.procs[q].parent.value); }
    }
  }

  lemma TamePending(s: Table, t: Table)
    requires Inv(s) && AllTame(s, t)
    ensures WakePending(s) <==> WakePending(t)
  {
    if s.waiter.Some? { assert Tame(s, t, s.waiter.value); }
  }

  /** A step that changes one process where it stands, and takes or gives wait_lock if at all for it. */
  predicate InPlace(s: Table, t: Table, p: nat) {
    && p < |s.procs| && |t.procs| == |s.procs| && t == s.(procs := s.procs[p := t.procs[p]], waiter := t.waiter)
    && t.procs[p].on == s.procs[p].on && (s.procs[p].pc.Forked? || s.procs[p].pc.Parented? ==> t.procs[p].pc == s.procs[p].pc)
    && (t.waiter == s.waiter || (s.waiter == Some(p) && t.waiter == None) || (s.waiter == None && t.waiter == Some(p)))
    && (s.procs[p].state == USED ==> t.procs[p].state == USED && t.procs[p].parent == s.procs[p].parent && t.procs[p].maker == s.procs[p].maker)
  }

  lemma OthersSeated(s: Table, t: Table, p: nat)
    requires Seated(s) && InitOk(t) && InPlace(s, t, p) && Placed(t, p)
    ensures Seated(t)
  {
    forall q: nat ensures Placed(t, q) { assert Placed(s, q); }
    forall c: nat ensures HartOk(t, c) { assert HartOk(s, c); }
  }

  lemma LocalKeeps(s: Table, t: Table, p: nat)
    requires Inv(s) && InitOk(t) && InPlace(s, t, p) && t.waiter == s.waiter && Placed(t, p) && Tame(s, t, p)
    ensures Inv(t)
  {
    OthersSeated(s, t, p);
    forall q: nat ensures Tame(s, t, q) { }
    TameKeeps(s, t);
  }

  lemma ReleaseKeeps(s: Table, p: nat)
    requires Inv(s) && Enabled(s, Release(p))
    ensures Inv(Next(s, Release(p)))
  {
    assert Placed(s, p);
    LocalKeeps(s, Next(s, Release(p)), p);
  }

  lemma YieldKeeps(s: Table, p: nat)
    requires Inv(s) && Enabled(s, Yield(p))
    ensures Inv(Next(s, Yield(p)))
  {
    assert Placed(s, p);
    LocalKeeps(s, Next(s, Yield(p)), p);
  }

  lemma SleepOtherKeeps(s: Table, p: nat, n: nat)
    requires Inv(s) && Enabled(s, SleepOther(p, n))
    ensures Inv(Next(s, SleepOther(p, n)))
  {
    assert Placed(s, p);
    LocalKeeps(s, Next(s, SleepOther(p, n)), p);
  }

  lemma FallAsleepKeeps(s: Table, p: nat)
    requires Inv(s) && Enabled(s, FallAsleep(p))
    ensures Inv(Next(s, FallAsleep(p)))
  {
    assert Placed(s, p);
    LocalKeeps(s, Next(s, FallAsleep(p)), p);
  }

  lemma KillKeeps(s: Table, q: nat)
    requires Inv(s) && Enabled(s, Kill(q))
    ensures Inv(Next(s, Kill(q)))
  {
    assert Placed(s, q);
    LocalKeeps(s, Next(s, Kill(q)), q);
  }

  lemma WakeOtherKeeps(s: Table, q: nat, n: nat)
    requires Inv(s) && Enabled(s, WakeOther(q, n))
    ensures Inv(Next(s, WakeOther(q, n)))
  {
    assert Placed(s, q);
    if Next(s, WakeOther(q, n)) != s {
      LocalKeeps(s, Next(s, WakeOther(q, n)), q);
    }
  }

  lemma SwitchInKeeps(s: Table, c: nat, q: nat)
    requires Inv(s) && Enabled(s, SwitchIn(c, q))
    ensures Inv(Next(s, SwitchIn(c, q)))
  {
    var t := Next(s, SwitchIn(c, q));
    assert Placed(s, q);
    forall p: nat ensures Placed(t, p) { assert Placed(s, p); }
    forall d: nat ensures HartOk(t, d) { assert HartOk(s, d); }
    forall p: nat ensures Tame(s, t, p) { }
    TameKeeps(s, t);
  }

  lemma SwitchOutKeeps(s: Table, c: nat)
    requires Inv(s) && Enabled(s, SwitchOut(c))
    ensures Inv(Next(s, SwitchOut(c)))
  {
    var t, q := Next(s, SwitchOut(c)), s.cpus[c].value;
    assert Placed(s, q) && HartOk(s, c);
    forall p: nat ensures Placed(t, p) { assert Placed(s, p); }
    forall d: nat ensures HartOk(t, d) { assert HartOk(s, d); }
    forall p: nat ensures Tame(s, t, p) { }
    TameKeeps(s, t);
  }

  // ----- fork -----

  lemma AllocSeats(s: Table, p: nat, np: nat)
    requires Seated(s) && Enabled(s, Alloc(p, np))
    ensures Seated(Next(s, Alloc(p, np)))
  {
    var t := Next(s, Alloc(p, np));
    assert Placed(s, p) && Placed(s, np);
    forall q: nat ensures Placed(t, q) { assert Placed(s, q); }
    forall c: nat ensures HartOk(t, c) { assert HartOk(s, c); }
  }

  lemma AllocKeeps(s: Table, p: nat, np: nat)
    requires Inv(s) && Enabled(s, Alloc(p, np))
    ensures Inv(Next(s, Alloc(p, np)))
  {
    AllocSeats(s, p, np);
    assert Placed(s, p) && Placed(s, np);
    forall q: nat ensures Tame(s, Next(s, Alloc(p, np)), q) { }
    TameKeeps(s, Next(s, Alloc(p, np)));
  }

  lemma ForkFailsKeeps(s: Table, p: nat, np: nat)
    requires Inv(s) && Enabled(s, ForkFails(p, np))
    ensures Inv(Next(s, ForkFails(p, np)))
  {
    assert Placed(s, np);
    LocalKeeps(s, Next(s, ForkFails(p, np)), np);
  }

  lemma LaunchSeats(s: Table, p: nat)
    requires Seated(s) && Enabled(s, Launch(p))
    ensures Seated(Next(s, Launch(p)))
  {
    var t := Next(s, Launch(p));
    assert Placed(s, p) && Placed(s, s.procs[p].pc.np);
    forall q: nat ensures Placed(t, q) { assert Placed(s, q); }
    forall c: nat ensures HartOk(t, c) { assert HartOk(s, c); }
  }

  lemma LaunchKeeps(s: Table, p: nat)
    requires Inv(s) && Enabled(s, Launch(p))
    ensures Inv(Next(s, Launch(p)))
  {
    LaunchSeats(s, p);
    assert Placed(s, p) && Placed(s, s.procs[p].pc.np);
    forall q: nat ensures Tame(s, Next(s, Launch(p)), q) { }
    TameKeeps(s, Next(s, Launch(p)));
  }

  lemma SetParentSeats(s: Table, p: nat)
    requires Seated(s) && Enabled(s, SetParent(p))
    ensures Seated(Next(s, SetParent(p)))
  {
    var t := Next(s, SetParent(p));
    assert Placed(s, p) && Placed(s, s.procs[p].pc.np);
    forall q: nat ensures Placed(t, q) { assert Placed(s, q); }
    forall c: nat ensures HartOk(t, c) { assert HartOk(s, c); }
  }

  lemma SetParentKeeps(s: Table, p: nat)
    requires Inv(s) && Enabled(s, SetParent(p))
    ensures Inv(Next(s, SetParent(p)))
  {
    var t := Next(s, SetParent(p));
    SetParentSeats(s, p);
    assert Placed(s, p) && Placed(s, s.procs[p].pc.np);
    forall q: nat ensures Raised(t, q) { assert Raised(s, q); }
    forall z: nat ensures Noticed(t, z) { assert Noticed(s, z); }
    forall q: nat ensures Announced(t, q) { assert Announced(s, q); }
  }

  // ----- exit -----

  lemma BeginExitKeeps(s: Table, p: nat)
    requires Inv(s) && Enabled(s, BeginExit(p))
    ensures Inv(Next(s, BeginExit(p)))
  {
    var t := Next(s, BeginExit(p));
    assert Placed(s, p);
    OthersSeated(s, t, p);
    forall q: nat ensures Raised(t, q) { assert Raised(s, q); }
    forall z: nat ensures Noticed(t, z) { assert Noticed(s, z); }
    forall q: nat ensures Announced(t, q) { assert Announced(s, q); }
  }

  /** A walk through the table: only p's place in the code changes, and p keeps wait_lock. */
  lemma WalkSeats(s: Table, p: nat, pc: Pc)
    requires Seated(s) && Free(s, p) && HoldsWait(s.procs[p].pc) && HoldsWait(pc) && (p == s.init ==> pc.Scanning?)
    ensures Seated(Moved(s, p, pc))
  {
    assert Placed(s, p);
    OthersSeated(s, Moved(s, p, pc), p);
  }

  lemma HandOverSeats(s: Table, p: nat)
    requires Inv(s) && Enabled(s, Reparent(p)) && s.procs[s.procs[p].pc.i].parent == Some(p)
    ensures Seated(Next(s, Reparent(p)))
  {
    var i := s.procs[p].pc.i;
    var u := With(s, i, s.procs[i].(parent := Some(s.init)));
    assert Placed(s, p) && Placed(s, i);
    NotMadeWhileExiting(s, p, i);
    OthersSeated(s, u, i);
    WalkSeats(u, p, Handing(i, 0));
  }

  /** A child still being made by kfork has no parent, or its maker for parent. */
  lemma NotMadeWhileExiting(s: Table, p: nat, i: nat)
    requires Inv(s) && p < |s.procs| && i < |s.procs| && s.procs[p].pc.Exiting? && s.procs[i].parent == Some(p)
    ensures !Unborn(s.procs[i])
  {
    assert Placed(s, i);
  }

  lemma ReparentKeeps(s: Table, p: nat)
    requires Inv(s) && Enabled(s, Reparent(p))
    ensures Inv(Next(s, Reparent(p)))
  {
    if s.procs[s.procs[p].pc.i].parent == Some(p) {
      HandOverSeats(s, p);
      HandOverTends(s, p);
    } else {
      PassByKeeps(s, p);
    }
  }

  lemma PassByKeeps(s: Table, p: nat)
    requires Inv(s) && Enabled(s, Reparent(p)) && s.procs[s.procs[p].pc.i].parent != Some(p)
    ensures Inv(Moved(s, p, Exiting(s.procs[p].pc.i + 1)))
  {
    var t := Moved(s, p, Exiting(s.procs[p].pc.i + 1));
    assert Placed(s, s.init) && Placed(s, p);
    WalkSeats(s, p, Exiting(s.procs[p].pc.i + 1));
    forall q: nat ensures Raised(t, q) { assert Raised(s, q); }
    forall z: nat ensures Noticed(t, z) { assert Noticed(s, z); }
    forall q: nat ensures Announced(t, q) { assert Announced(s, q); }
  }

  lemma HandOverTends(s: Table, p: nat)
    requires Inv(s) && Enabled(s, Reparent(p)) && s.procs[s.procs[p].pc.i].parent == Some(p)
    ensures Tended(Next(s, Reparent(p)))
  {
    var t := Next(s, Reparent(p));
    assert Placed(s, p) && Placed(s, s.init);
    forall q: nat ensures Raised(t, q) { assert Raised(s, q); }
    forall z: nat ensures Noticed(t, z) { assert Noticed(s, z); }
    forall q: nat ensures Announced(t, q) { assert Announced(s, q) && Placed(s, q); }
  }

  lemma WokenKeeps(s: Table, p: nat, j: nat, q: Option<nat>)
    requires Inv(s) && Unlocked(s, j)
    ensures Inv(Woken(s, p, j, q))
    ensures j != p && q == Some(j) ==> !Drowsy(Woken(s, p, j, q), j)
  {
    assert Placed(s, j);
    if Woken(s, p, j, q) != s {
      LocalKeeps(s, Woken(s, p, j, q), j);
    }
  }

  lemma WakeInitKeeps(s: Table, p: nat)
    requires Inv(s) && Enabled(s, WakeInit(p))
    ensures Inv(Next(s, WakeInit(p)))
  {
    var i, j := s.procs[p].pc.i, s.procs[p].pc.j;
    if j >= |s.procs| {
      HandingKeeps(s, p, Exiting(i + 1));
    } else if j == p {
      HandingKeeps(s, p, Handing(i, j + 1));
    } else {
      WokenKeeps(s, p, j, Some(s.init));
      HandingKeeps(Woken(s, p, j, Some(s.init)), p, Handing(i, j + 1));
    }
  }

  lemma HandingKeeps(s: Table, p: nat, pc: Pc)
    requires Inv(s) && Free(s, p) && s.procs[p].pc.Handing?
    requires var x := s.procs[p].pc; if x.j < |s.procs| then pc == Handing(x.i, x.j + 1) else pc == Exiting(x.i + 1)
    requires s.procs[p].pc.j == s.init ==> !Drowsy(s, s.init)
    ensures Inv(Moved(s, p, pc))
  {
    var t := Moved(s, p, pc);
    assert Placed(s, p);
    WalkSeats(s, p, pc);
    forall q: nat ensures Raised(t, q) { assert Raised(s, q); }
    forall z: nat ensures Noticed(t, z) { assert Noticed(s, z); }
    forall q: nat ensures Announced(t, q) { assert Announced(s, q); }
  }

  lemma ReparentedKeeps(s: Table, p: nat)
    requires Inv(s) && Enabled(s, Reparented(p))
    ensures Inv(Next(s, Reparented(p)))
  {
    var t := Next(s, Reparented(p));
    assert Placed(s, p);
    OthersSeated(s, t, p);
    forall q: nat ensures Raised(t, q) { assert Raised(s, q); }
    forall z: nat ensures Noticed(t, z) { assert Noticed(s, z); }
    forall q: nat ensures Announced(t, q) { assert Announced(s, q); }
  }

  lemma WakeParentKeeps(s: Table, p: nat)
    requires Inv(s) && Enabled(s, WakeParent(p))
    ensures Inv(Next(s, WakeParent(p)))
  {
    var j := s.procs[p].pc.j;
    assert Placed(s, p);
    if j != p { WokenKeeps(s, p, j, s.procs[p].parent); }
    CallingKeeps(Woken(s, p, j, s.procs[p].parent), p);
  }

  lemma CallingKeeps(s: Table, p: nat)
    requires Inv(s) && Free(s, p) && s.procs[p].pc.Calling?
    requires s.procs[p].parent == Some(s.procs[p].pc.j) ==> !Drowsy(s, s.procs[p].pc.j)
    ensures Inv(Moved(s, p, Calling(s.procs[p].pc.j + 1)))
  {
    var t := Moved(s, p, Calling(s.procs[p].pc.j + 1));
    assert Placed(s, p);
    WalkSeats(s, p, Calling(s.procs[p].pc.j + 1));
    forall q: nat ensures Raised(t, q) { assert Raised(s, q); }
    forall z: nat ensures Noticed(t, z) { assert Noticed(s, z); }
    forall q: nat ensures Announced(t, q) { assert Announced(s, q); }
  }

  lemma CalledKeeps(s: Table, p: nat)
    requires Inv(s) && Enabled(s, Called(p))
    ensures Inv(Next(s, Called(p)))
  {
    var t := Next(s, Called(p));
    assert Placed(s, p);
    OthersSeated(s, t, p);
    forall q: nat ensures Raised(t, q) { assert Raised(s, q); }
    forall z: nat ensures Noticed(t, z) { assert Noticed(s, z); }
    forall q: nat ensures Announced(t, q) { assert Announced(s, q); }
  }

  lemma DieKeeps(s: Table, p: nat)
    requires Inv(s) && Enabled(s, Die(p))
    ensures Inv(Next(s, Die(p)))
  {
    var t := Next(s, Die(p));
    assert Placed(s, p) && Announced(s, p);
    OthersSeated(s, t, p);
    forall q: nat ensures Raised(t, q) { assert Raised(s, q); }
    forall z: nat ensures Noticed(t, z) { assert Noticed(s, z); if z < |s.procs| && s.procs[z].parent.Some? { assert Placed(s, s.procs[z].parent.value); } }
    forall q: nat ensures Announced(t, q) { assert Announced(s, q) && Placed(s, q); }
  }

  // ----- wait -----

  lemma BeginWaitKeeps(s: Table, p: nat)
    requires Inv(s) && Enabled(s, BeginWait(p))
    ensures Inv(Next(s, BeginWait(p)))
  {
    var t := Next(s, BeginWait(p));
    assert Placed(s, p);
    OthersSeated(s, t, p);
    forall q: nat ensures Raised(t, q) { assert Raised(s, q); }
    forall z: nat ensures Noticed(t, z) { assert Noticed(s, z); }
    forall q: nat ensures Announced(t, q) { assert Announced(s, q); }
  }

  lemma GiveUpKeeps(s: Table, p: nat)
    requires Inv(s) && Enabled(s, GiveUp(p))
    ensures Inv(Next(s, GiveUp(p)))
  {
    assert Placed(s, p);
    StopsScanning(s, p);
  }

  lemma StopsScanning(s: Table, p: nat)
    requires Inv(s) && Free(s, p) && s.procs[p].pc.Scanning? && Placed(s, p)
    ensures Inv(Moved(s, p, Idle).(waiter := None))
  {
    var t := Moved(s, p, Idle).(waiter := None);
    OthersSeated(s, t, p);
    forall q: nat ensures Raised(t, q) { assert Raised(s, q); }
    forall z: nat ensures Noticed(t, z) { assert Noticed(s, z); }
    forall q: nat ensures Announced(t, q) { assert Announced(s, q) && Placed(s, q); }
  }

  lemma DozeKeeps(s: Table, p: nat)
    requires Inv(s) && Enabled(s, Doze(p))
    ensures Inv(Next(s, Doze(p)))
  {
    var t := Next(s, Doze(p));
    assert Placed(s, p);
    OthersSeated(s, t, p);
    forall q: nat ensures Raised(t, q) { assert Raised(s, q); }
    forall z: nat ensures Noticed(t, z) { assert Noticed(s, z); }
    forall q: nat ensures Announced(t, q) { assert Announced(s, q) && Placed(s, q); }
  }

  lemma ScanOnKeeps(s: Table, p: nat, kids: bool)
    requires Inv(s) && Free(s, p) && s.procs[p].pc.Scanning? && s.procs[p].pc.i < |s.procs|
    requires s.procs[s.procs[p].pc.i].state == ZOMBIE ==> s.procs[s.procs[p].pc.i].parent != Some(p)
    ensures Inv(Moved(s, p, Scanning(s.procs[p].pc.i + 1, kids)))
  {
    var t := Moved(s, p, Scanning(s.procs[p].pc.i + 1, kids));
    assert Placed(s, p);
    WalkSeats(s, p, Scanning(s.procs[p].pc.i + 1, kids));
    forall q: nat ensures Raised(t, q) { assert Raised(s, q); }
    forall z: nat ensures Noticed(t, z) { assert Noticed(s, z); }
    forall q: nat ensures Announced(t, q) { assert Announced(s, q); }
  }

  /** Freeing the slot of a zombie. */
  lemma FreedKeeps(s: Table, i: nat)
    requires Inv(s) && Unlocked(s, i) && s.procs[i].state == ZOMBIE
    ensures Inv(With(s, i, FREE))
  {
    var t := With(s, i, FREE);
    assert Placed(s, i);
    OthersSeated(s, t, i);
    forall q: nat ensures Raised(t, q) { assert Raised(s, q); }
    forall z: nat ensures Noticed(t, z) { assert Noticed(s, z); }
    forall q: nat ensures Announced(t, q) { assert Announced(s, q); }
  }

  lemma ScanKeeps(s: Table, p: nat, reap: bool)
    requires Inv(s) && Enabled(s, Scan(p, reap))
    ensures Inv(Next(s, Scan(p, reap)))
  {
    var i := s.procs[p].pc.i;
    assert Placed(s, p);
    if s.procs[i].parent == Some(p) && s.procs[i].state == ZOMBIE {
      FoundKeeps(s, p, i, reap);
    } else {
      ScanOnKeeps(s, p, s.procs[i].parent == Some(p) || s.procs[p].pc.kids);
    }
  }

  lemma FoundKeeps(s: Table, p: nat, i: nat, reap: bool)
    requires Inv(s) && Enabled(s, Scan(p, reap)) && i == s.procs[p].pc.i && s.procs[i].parent == Some(p) && s.procs[i].state == ZOMBIE
    ensures Inv(Next(s, Scan(p, reap)))
  {
    StopsScanning(s, p);
    if reap {
      var u := Moved(s, p, Idle).(waiter := None);
      FreedKeeps(u, i);
      assert Next(s, Scan(p, reap)).procs == With(u, i, FREE).procs;
    }
  }

  lemma StepKeeps(s: Table, a: Step)
    requires Inv(s) && Enabled(s, a)
    ensures Inv(Next(s, a))
  {
    match a
    case Alloc(p, np) => AllocKeeps(s, p, np);
    case ForkFails(p, np) => ForkFailsKeeps(s, p, np);
    case SetParent(p) => SetParentKeeps(s, p);
    case Launch(p) => LaunchKeeps(s, p);
    case BeginExit(p) => BeginExitKeeps(s, p);
    case Reparent(p) => ReparentKeeps(s, p);
    case WakeInit(p) => WakeInitKeeps(s, p);
    case Reparented(p) => ReparentedKeeps(s, p);
    case WakeParent(p) => WakeParentKeeps(s, p);
    case Called(p) => CalledKeeps(s, p);
    case Die(p) => DieKeeps(s, p);
    case BeginWait(p) => BeginWaitKeeps(s, p);
    case Scan(p, reap) => ScanKeeps(s, p, reap);
    case GiveUp(p) => GiveUpKeeps(s, p);
    case Doze(p) => DozeKeeps(s, p);
    case FallAsleep(p) => FallAsleepKeeps(s, p);
    case SleepOther(p, n) => SleepOtherKeeps(s, p, n);
    case Yield(p) => YieldKeeps(s, p);
    case SwitchOut(c) => SwitchOutKeeps(s, c);
    case SwitchIn(c, q) => SwitchInKeeps(s, c, q);
    case Release(p) => ReleaseKeeps(s, p);
    case Kill(q) => KillKeeps(s, q);
    case WakeOther(q, n) => WakeOtherKeeps(s, q, n);
  }

  // ----- what kwait has seen -----

  /** One of the slots below i is a child of p. */
  predicate ChildBelow(s: Table, p: nat, i: nat) {
    exists j :: 0 <= j < i && j < |s.procs| && s.procs[j].parent == Some(p)
  }

  /** A scan of kwait knows exactly whether there is a child among the slots it has looked at. */
  predicate Tallied(s: Table, p: nat) {
    p < |s.procs| && s.procs[p].pc.Scanning? ==> (s.procs[p].pc.kids <==> ChildBelow(s, p, s.procs[p].pc.i))
  }

  ghost predicate KidsKnown(s: Table) {
    forall p: nat {:trigger Tallied(s, p)} :: Tallied(s, p)
  }

  /** The steps of other functions than kwait: they leave a scan alone, and all parents while there is one. */
  predicate Elsewhere(s: Table, t: Table, p: nat) {
    && |t.procs| == |s.procs| && p < |s.procs| && t.procs[p].pc == s.procs[p].pc
    && forall q :: 0 <= q < |s.procs| ==> t.procs[q].parent == s.procs[q].parent
  }

  lemma ElsewhereTallied(s: Table, t: Table, p: nat)
    requires Tallied(s, p) && Elsewhere(s, t, p)
    ensures Tallied(t, p)
  {
    if s.procs[p].pc.Scanning? {
      var i := s.procs[p].pc.i;
      if ChildBelow(s, p, i) {
        var j :| 0 <= j < i && j < |s.procs| && s.procs[j].parent == Some(p);
        assert t.procs[j].parent == Some(p);
      }
      if ChildBelow(t, p, i) {
        var j :| 0 <= j < i && j < |t.procs| && t.procs[j].parent == Some(p);
        assert s.procs[j].parent == Some(p);
      }
    }
  }

  /** Most steps move no parent at all. */
  lemma MostSteps(s: Table, a: Step, p: nat)
    requires Enabled(s, a) && !a.BeginWait? && !a.Scan? && !a.ForkFails? && !a.SetParent? && !a.Reparent?
    requires p < |Next(s, a).procs| && Next(s, a).procs[p].pc.Scanning?
    ensures Elsewhere(s, Next(s, a), p)
  {
  }

  /** The others move none while p scans. */
  lemma OthersStep(s: Table, a: Step, p: nat)
    requires Enabled(s, a) && (a.ForkFails? || a.SetParent? || a.Reparent?)
    requires p < |Next(s, a).procs| && Next(s, a).procs[p].pc.Scanning?
    requires Placed(s, if a.ForkFails? then a.np else a.p) && Placed(s, p)
    ensures Elsewhere(s, Next(s, a), p)
  {
  }

  lemma ScanGoesOn(s: Table, p: nat)
    requires p < |s.procs| && s.procs[p].pc.Scanning? && s.procs[p].pc.i < |s.procs| && Tallied(s, p)
    ensures var x := s.procs[p].pc; Tallied(Moved(s, p, Scanning(x.i + 1, x.kids || s.procs[x.i].parent == Some(p))), p)
  {
    var x := s.procs[p].pc;
    var t := Moved(s, p, Scanning(x.i + 1, x.kids || s.procs[x.i].parent == Some(p)));
    assert t.procs[x.i].parent == s.procs[x.i].parent;
    if ChildBelow(s, p, x.i) {
      var j :| 0 <= j < x.i && j < |s.procs| && s.procs[j].parent == Some(p);
      assert t.procs[j].parent == Some(p);
    }
    if ChildBelow(t, p, x.i + 1) {
      var j :| 0 <= j < x.i + 1 && j < |t.procs| && t.procs[j].parent == Some(p);
      assert s.procs[j].parent == Some(p);
    }
  }

  lemma ScanTallied(s: Table, p: nat, reap: bool, q: nat)
    requires Enabled(s, Scan(p, reap)) && Placed(s, p) && Tallied(s, p) && Placed(Next(s, Scan(p, reap)), q)
    ensures Tallied(Next(s, Scan(p, reap)), q)
  {
    var t := Next(s, Scan(p, reap));
    if q < |t.procs| && t.procs[q].pc.Scanning? {
      assert q == p;
      ScanGoesOn(s, p);
    }
  }

  lemma KidsKept(s: Table, a: Step)
    requires Inv(s) && KidsKnown(s) && Enabled(s, a) && Inv(Next(s, a))
    ensures KidsKnown(Next(s, a))
  {
    var t := Next(s, a);
    forall p: nat ensures Tallied(t, p) {
      assert Tallied(s, p) && Placed(s, p) && Placed(t, p);
      if a.Scan? {
        assert Placed(s, a.p) && Tallied(s, a.p);
        ScanTallied(s, a.p, a.reap, p);
      } else if p < |t.procs| && t.procs[p].pc.Scanning? && !a.BeginWait? {
        if a.ForkFails? || a.SetParent? || a.Reparent? {
          assert Placed(s, if a.ForkFails? then a.np else a.p);
          OthersStep(s, a, p);
        } else {
          MostSteps(s, a, p);
        }
        ElsewhereTallied(s, t, p);
      }
    }
  }

  lemma InvKept(s: Table, a: Step)
    requires Inv(s) && KidsKnown(s) && Enabled(s, a)
    ensures Inv(Next(s, a)) && KidsKnown(Next(s, a))
  {
    StepKeeps(s, a);
    KidsKept(s, a);
  }

  // ----- whole runs -----

  /** After userinit: one process, init, ready to run; every other slot is free and every hart in the
      scheduler. */
  predicate Booted(s: Table) {
    && s.init < |s.procs| && s.waiter == None
    && (forall c | 0 <= c < |s.cpus| :: s.cpus[c] == None)
    && (forall p | 0 <= p < |s.procs| :: s.procs[p] == if p == s.init then FREE.(state := RUNNABLE) else FREE)
  }

  ghost predicate IsRun(s: Table, steps: seq<Step>)
    decreases |steps|
  {
    steps == [] || (Enabled(s, steps[0]) && IsRun(Next(s, steps[0]), steps[1..]))
  }

  ghost function After(s: Table, steps: seq<Step>): Table
    requires IsRun(s, steps)
    decreases |steps|
  {
    if steps == [] then s else After(Next(s, steps[0]), steps[1..])
  }

  lemma BootedIsSound(s: Table)
    requires Booted(s)
    ensures Inv(s) && KidsKnown(s)
  {
    forall p: nat ensures Tallied(s, p) { }
    forall p: nat ensures Placed(s, p) { }
    forall c: nat ensures HartOk(s, c) { }
    forall q: nat ensures Raised(s, q) { }
    forall z: nat ensures Noticed(s, z) { }
    forall p: nat ensures Announced(s, p) { }
  }

  lemma {:induction false} RunsAreSound(s: Table, steps: seq<Step>)
    requires Inv(s) && KidsKnown(s) && IsRun(s, steps)
    ensures Inv(After(s, steps)) && KidsKnown(After(s, steps))
    decreases |steps|
  {
    if steps != [] {
      InvKept(s, steps[0]);
      RunsAreSound(Next(s, steps[0]), steps[1..]);
    }
  }

  /** The harts whose proc names q. */
  ghost function HartsOf(s: Table, q: nat): set<nat> {
    set c | 0 <= c < |s.cpus| && s.cpus[c] == Some(q)
  }

  /** In every run, a process whose lock is free is RUNNING exactly when one hart names it, no process is
      ever on two harts, and every hart that names a process names one that is RUNNING or locked. */
  lemma OnOneHart(s: Table, steps: seq<Step>, q: nat)
    requires Booted(s) && IsRun(s, steps) && q < |After(s, steps).procs|
    ensures var t := After(s, steps);
            && |HartsOf(t, q)| <= 1
            && (!t.procs[q].locked ==> (t.procs[q].state == RUNNING <==> |HartsOf(t, q)| == 1))
            && (HartsOf(t, q) != {} ==> t.procs[q].state == RUNNING || t.procs[q].locked)
  {
    var t := After(s, steps);
    BootedIsSound(s);
    RunsAreSound(s, steps);
    assert Placed(t, q);
    forall c | c in HartsOf(t, q) ensures t.procs[q].on == Some(c) { assert HartOk(t, c); }
    if t.procs[q].on.Some? {
      assert HartsOf(t, q) == {t.procs[q].on.value};
    } else {
      assert HartsOf(t, q) == {};
    }
  }

  /** In every run, every process that can be a child of anyone has a parent that lives: it is there, has
      run, and is not a zombie, whatever locks are held. Only init, and a slot that is free or being set
      up, have none. */
  lemma NoOrphans(s: Table, steps: seq<Step>, q: nat)
    requires Booted(s) && IsRun(s, steps) && q < |After(s, steps).procs|
    ensures var t, x := After(s, steps), After(s, steps).procs[q];
            && (x.parent == None ==> x.state == UNUSED || x.state == USED || q == t.init)
            && (x.parent.Some? ==> x.parent.value < |t.procs| && t.procs[x.parent.value].state !in {UNUSED, USED, ZOMBIE})
  {
    BootedIsSound(s);
    RunsAreSound(s, steps);
    assert Placed(After(s, steps), q) && Raised(After(s, steps), q);
  }

  /** In every run, whenever wait_lock is free, no process asleep in kwait, or on its way to sleep there,
      has a zombie child: each zombie has a parent, and that parent is awake. */
  lemma NoMissedDeath(s: Table, steps: seq<Step>, z: nat)
    requires Booted(s) && IsRun(s, steps) && After(s, steps).waiter == None
    requires z < |After(s, steps).procs| && After(s, steps).procs[z].state == ZOMBIE
    ensures var t := After(s, steps);
            t.procs[z].parent.Some? && !Drowsy(t, t.procs[z].parent.value)
  {
    BootedIsSound(s);
    RunsAreSound(s, steps);
    NoOrphans(s, steps, z);
    assert Placed(After(s, steps), z) && Noticed(After(s, steps), z) && Placed(After(s, steps), After(s, steps).init);
  }

  /** In every run, when kwait has been through the table, it can go to sleep exactly if somebody has the caller
      for parent, and it can return -1 exactly if nobody has, or the caller was killed. */
  lemma WaitKnowsItsChildren(s: Table, steps: seq<Step>, p: nat)
    requires Booted(s) && IsRun(s, steps) && Free(After(s, steps), p)
    requires var pc := After(s, steps).procs[p].pc; pc.Scanning? && pc.i >= |After(s, steps).procs|
    ensures var t := After(s, steps);
            var child := exists q :: 0 <= q < |t.procs| && t.procs[q].parent == Some(p);
            (Enabled(t, Doze(p)) <==> child) && (Enabled(t, GiveUp(p)) <==> !child || t.procs[p].killed)
  {
    var t := After(s, steps);
    BootedIsSound(s);
    RunsAreSound(s, steps);
    assert Tallied(t, p);
    if q: nat :| q < |t.procs| && t.procs[q].parent == Some(p) {
      assert ChildBelow(t, p, t.procs[p].pc.i);
    }
  }

  /** In every run, a process that kwait is about to free has left its hart for good, nobody has it for
      parent, and it does not hold wait_lock. */
  lemma FreedAfterUse(s: Table, steps: seq<Step>, p: nat)
    requires Booted(s) && IsRun(s, steps) && Enabled(After(s, steps), Scan(p, true))
    requires var t := After(s, steps);
             t.procs[t.procs[p].pc.i].parent == Some(p) && t.procs[t.procs[p].pc.i].state == ZOMBIE
    ensures var t := After(s, steps);
            var i := t.procs[p].pc.i;
            && HartsOf(t, i) == {} && t.waiter == Some(p) && p != i
            && (forall q | 0 <= q < |t.procs| :: t.procs[q].parent != Some(i))
            && Next(t, Scan(p, true)).procs[i] == FREE
  {
    var t := After(s, steps);
    var i := t.procs[p].pc.i;
    OnOneHart(s, steps, i);
    forall q | 0 <= q < |t.procs| ensures t.procs[q].parent != Some(i) { NoOrphans(s, steps, q); }
    RunsAreSoundAt(s, steps, p);
  }

  lemma RunsAreSoundAt(s: Table, steps: seq<Step>, p: nat)
    requires Booted(s) && IsRun(s, steps)
    ensures Placed(After(s, steps), p)
  {
    BootedIsSound(s);
    RunsAreSound(s, steps);
  }
}
