/** One run of the process machine from boot: init forks, waits and sleeps; the child exits and wakes it; init
    comes back and frees the child. (projects/07-xv6plus/kernel/proc.c) */
module LifeCycleRun {
  import opened LifeCycle

  /** The steps lead from s to t. */
  ghost predicate Leads(s: Table, steps: seq<Step>, t: Table) {
    IsRun(s, steps) && After(s, steps) == t
  }

  lemma {:induction false} Then(s: Table, a: seq<Step>, t: Table, b: seq<Step>, u: Table)
    requires Leads(s, a, t) && Leads(t, b, u)
    ensures Leads(s, a + b, u)
    decreases |a|
  {
    if a == [] {
      assert a + b == b;
    } else {
      assert (a + b)[1..] == a[1..] + b;
      Then(Next(s, a[0]), a[1..], t, b, u);
    }
  }

  lemma One(s: Table, a: Step, t: Table)
    requires Enabled(s, a) && Next(s, a) == t
    ensures Leads(s, [a], t)
  {
    assert [a][1..] == [];
  }

  lemma Two(s: Table, a: Step, t: Table, b: Step, u: Table)
    requires Enabled(s, a) && Next(s, a) == t && Enabled(t, b) && Next(t, b) == u
    ensures Leads(s, [a, b], u)
  {
    One(s, a, t);
    One(t, b, u);
    Then(s, [a], t, [b], u);
    assert [a] + [b] == [a, b];
  }

  /** Two slots and one hart; init is slot 0. */
  function Small(init: Proc, child: Proc, running: Option<nat>, waiter: Option<nat>): Table {
    Table([init, child], [running], waiter, 0)
  }

  const BOOTED := FREE.(state := RUNNABLE)

  /** A thread at a point of the kernel, running on hart 0. */
  function On(pc: Pc, parent: Option<nat>): Proc {
    Proc(RUNNING, NoChan, parent, false, pc, false, false, Some(0), None)
  }

  const NEWBORN := Proc(RUNNABLE, NoChan, Some(0), false, Idle, true, false, None, None)

  function Sleeping(state: State): Proc {
    Proc(state, OwnChan, None, false, Asleep, false, false, None, None)
  }

  /** A zombie that has left its hart. */
  const CORPSE := Proc(ZOMBIE, NoChan, Some(0), false, Dead, false, false, None, None)

  const START := Small(BOOTED, FREE, None, None)
  const FORKED := Small(On(Idle, None), NEWBORN, Some(0), None)
  const SEEN := Small(On(Scanning(2, true), None), NEWBORN, Some(0), Some(0))
  const WAITING := Small(Sleeping(SLEEPING), NEWBORN, None, None)
  const LEAVING := Small(Sleeping(SLEEPING), On(Exiting(2), Some(0)), Some(1), Some(1))
  const WOKEN := Small(Sleeping(RUNNABLE), On(Calling(2), Some(0)), Some(1), Some(1))
  const GONE := Small(Sleeping(RUNNABLE), CORPSE, None, None)
  const BACK := Small(On(Rejoining, None), CORPSE, Some(0), None)
  const REAPED := Small(On(Idle, None), FREE, Some(0), None)

  function Locked(x: Proc): Proc {
    x.(locked := true)
  }

  /** init comes up. */
  lemma Starts()
    ensures Leads(START, [SwitchIn(0, 0), Release(0)], Small(On(Idle, None), FREE, Some(0), None))
  {
    Two(START, SwitchIn(0, 0), Small(Locked(On(Idle, None)).(rest := true), FREE, Some(0), None), Release(0), REAPED);
  }

  /** It forks. */
  lemma Forks()
    ensures Leads(REAPED, [Alloc(0, 1), SetParent(0)] + [Launch(0)], FORKED)
  {
    var made := FREE.(state := USED, maker := Some(0));
    var t := Small(On(Parented(1), None), made.(parent := Some(0)), Some(0), None);
    Two(REAPED, Alloc(0, 1), Small(On(Forked(1), None), made, Some(0), None), SetParent(0), t);
    One(t, Launch(0), FORKED);
    Then(REAPED, [Alloc(0, 1), SetParent(0)], t, [Launch(0)], FORKED);
  }

  /** It finds a living child. */
  lemma Looks()
    ensures Leads(FORKED, [BeginWait(0), Scan(0, false)] + [Scan(0, false)], SEEN)
  {
    var t := Small(On(Scanning(1, false), None), NEWBORN, Some(0), Some(0));
    Two(FORKED, BeginWait(0), Small(On(Scanning(0, false), None), NEWBORN, Some(0), Some(0)), Scan(0, false), t);
    One(t, Scan(0, false), SEEN);
    Then(FORKED, [BeginWait(0), Scan(0, false)], t, [Scan(0, false)], SEEN);
  }

  /** And sleeps. */
  lemma Sleeps()
    ensures Leads(SEEN, [Doze(0), FallAsleep(0)] + [SwitchOut(0)], WAITING)
  {
    var t := Small(Locked(Sleeping(SLEEPING)).(on := Some(0)), NEWBORN, Some(0), None);
    Two(SEEN, Doze(0), Small(Locked(On(Dozing, None)), NEWBORN, Some(0), None), FallAsleep(0), t);
    One(t, SwitchOut(0), WAITING);
    Then(SEEN, [Doze(0), FallAsleep(0)], t, [SwitchOut(0)], WAITING);
  }

  /** The child runs. */
  lemma ChildRuns()
    ensures Leads(WAITING, [SwitchIn(0, 1), Release(1)], Small(Sleeping(SLEEPING), On(Idle, Some(0)), Some(1), None))
  {
    Two(WAITING, SwitchIn(0, 1), Small(Sleeping(SLEEPING), Locked(On(Idle, Some(0))).(rest := true), Some(1), None), Release(1),
        Small(Sleeping(SLEEPING), On(Idle, Some(0)), Some(1), None));
  }

  /** It is on its way out, and has no children. */
  lemma ExitBegins()
    ensures Leads(Small(Sleeping(SLEEPING), On(Idle, Some(0)), Some(1), None), [BeginExit(1), Reparent(1)] + [Reparent(1)], LEAVING)
  {
    var s := Small(Sleeping(SLEEPING), On(Idle, Some(0)), Some(1), None);
    var t := Small(Sleeping(SLEEPING), On(Exiting(1), Some(0)), Some(1), Some(1));
    Two(s, BeginExit(1), Small(Sleeping(SLEEPING), On(Exiting(0), Some(0)), Some(1), Some(1)), Reparent(1), t);
    One(t, Reparent(1), LEAVING);
    Then(s, [BeginExit(1), Reparent(1)], t, [Reparent(1)], LEAVING);
  }

  /** It wakes init. */
  lemma ExitWakes()
    ensures Leads(LEAVING, [Reparented(1), WakeParent(1)] + [WakeParent(1)], WOKEN)
  {
    var t := Small(Sleeping(RUNNABLE), On(Calling(1), Some(0)), Some(1), Some(1));
    Two(LEAVING, Reparented(1), Small(Sleeping(SLEEPING), On(Calling(0), Some(0)), Some(1), Some(1)), WakeParent(1), t);
    One(t, WakeParent(1), WOKEN);
    Then(LEAVING, [Reparented(1), WakeParent(1)], t, [WakeParent(1)], WOKEN);
  }

  /** And dies. */
  lemma ExitEnds()
    ensures Leads(WOKEN, [Called(1), Die(1)] + [SwitchOut(0)], GONE)
  {
    var t := Small(Sleeping(RUNNABLE), Locked(CORPSE).(on := Some(0)), Some(1), None);
    Two(WOKEN, Called(1), Small(Sleeping(RUNNABLE), On(Dying, Some(0)), Some(1), Some(1)), Die(1), t);
    One(t, SwitchOut(0), GONE);
    Then(WOKEN, [Called(1), Die(1)], t, [SwitchOut(0)], GONE);
  }

  /** init is back. */
  lemma Returns()
    ensures Leads(GONE, [SwitchIn(0, 0), Release(0)], BACK)
  {
    Two(GONE, SwitchIn(0, 0), Small(Locked(Sleeping(RUNNING)).(on := Some(0)), CORPSE, Some(0), None), Release(0), BACK);
  }

  /** And frees the child. */
  lemma Reaps()
    ensures Leads(BACK, [BeginWait(0), Scan(0, false)] + [Scan(0, true)], REAPED)
  {
    var t := Small(On(Scanning(1, false), None), CORPSE, Some(0), Some(0));
    Two(BACK, BeginWait(0), Small(On(Scanning(0, false), None), CORPSE, Some(0), Some(0)), Scan(0, false), t);
    One(t, Scan(0, true), REAPED);
    Then(BACK, [BeginWait(0), Scan(0, false)], t, [Scan(0, true)], REAPED);
  }

  lemma UpToSleep() returns (steps: seq<Step>)
    ensures Leads(START, steps, WAITING)
  {
    Starts();
    Forks();
    Looks();
    Sleeps();
    steps := [SwitchIn(0, 0), Release(0)];
    steps := Join(START, steps, REAPED, [Alloc(0, 1), SetParent(0)] + [Launch(0)], FORKED);
    steps := Join(START, steps, FORKED, [BeginWait(0), Scan(0, false)] + [Scan(0, false)], SEEN);
    steps := Join(START, steps, SEEN, [Doze(0), FallAsleep(0)] + [SwitchOut(0)], WAITING);
  }

  lemma Join(s: Table, a: seq<Step>, t: Table, b: seq<Step>, u: Table) returns (more: seq<Step>)
    requires Leads(s, a, t) && Leads(t, b, u)
    ensures Leads(s, more, u)
  {
    more := a + b;
    Then(s, a, t, b, u);
  }

  lemma UpToDeath() returns (steps: seq<Step>)
    ensures Leads(WAITING, steps, GONE)
  {
    ChildRuns();
    ExitBegins();
    ExitWakes();
    ExitEnds();
    var idle := Small(Sleeping(SLEEPING), On(Idle, Some(0)), Some(1), None);
    steps := Join(WAITING, [SwitchIn(0, 1), Release(1)], idle, [BeginExit(1), Reparent(1)] + [Reparent(1)], LEAVING);
    steps := Join(WAITING, steps, LEAVING, [Reparented(1), WakeParent(1)] + [WakeParent(1)], WOKEN);
    steps := Join(WAITING, steps, WOKEN, [Called(1), Die(1)] + [SwitchOut(0)], GONE);
  }

  /** From boot: init forks, finds its child alive and sleeps in wait; the child exits, wakes it and is a zombie; init
      is back, and the child's slot is free. */
  lemma ForkExitWait() returns (a: seq<Step>, b: seq<Step>, c: seq<Step>)
    ensures Booted(START) && Leads(START, a, WAITING) && Leads(WAITING, b, GONE) && Leads(GONE, c, REAPED)
    ensures Leads(START, a + b + c, REAPED)
    ensures Drowsy(WAITING, 0) && GONE.procs[1].state == ZOMBIE && !Drowsy(GONE, 0) && REAPED.procs[1] == FREE
  {
    a := UpToSleep();
    b := UpToDeath();
    Returns();
    Reaps();
    c := Join(GONE, [SwitchIn(0, 0), Release(0)], BACK, [BeginWait(0), Scan(0, false)] + [Scan(0, true)], REAPED);
    Then(START, a, WAITING, b, GONE);
    Then(START, a + b, GONE, c, REAPED);
  }
}
