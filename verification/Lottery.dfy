/** Lottery scheduling: a draw among the runnable processes, each in proportion to its tickets, and the
    retries that keep it from ever leaving runnable work unselected.
    (projects/07-xv6plus/kernel/proc.c, kernel/sched.h) */
module Lottery {
  import opened Xorshift

  const NPROC := 64
  const MAX_TICKETS := 100000
  const MAX_ATTEMPTS := 4
  const SEED := 2463534242

  datatype Proc = Proc(runnable: bool, tickets: nat)

  type Table = seq<Proc>

  /** The table has NPROC slots, and settickets has kept every count in bounds. */
  predicate Legal(t: Table) {
    |t| == NPROC && forall i :: 0 <= i < |t| ==> t[i].tickets <= MAX_TICKETS
  }

  /** What process i adds to a walk over the table. */
  function Share(t: Table, i: nat): nat
    requires i < |t|
  {
    if t[i].runnable then t[i].tickets else 0
  }

  /** The tickets of the runnable processes before slot i. */
  function Before(t: Table, i: nat): nat
    requires i <= |t|
  {
    if i == 0 then 0 else Before(t, i - 1) + Share(t, i - 1)
  }

  function Total(t: Table): nat {
    Before(t, |t|)
  }

  /** The slot at which the running sum first passes `winner`, or the length of the table. */
  function Walk(t: Table, winner: nat, i: nat): nat
    requires i <= |t|
    decreases |t| - i
  {
    if i == |t| then i
    else if t[i].runnable && Before(t, i + 1) > winner then i
    else Walk(t, winner, i + 1)
  }

  lemma {:induction false} BeforeGrows(t: Table, i: nat, j: nat)
    requires i <= j <= |t|
    ensures Before(t, i) <= Before(t, j)
  {
    if i < j {
      BeforeGrows(t, i, j - 1);
    }
  }

  /** The walk stops exactly at the process whose range of tickets holds the winner. */
  lemma {:induction false} WalkStopsAt(t: Table, winner: nat, i: nat, k: nat)
    requires i <= |t| && k < |t| && Before(t, i) <= winner
    ensures i <= k ==> (Walk(t, winner, i) == k <==> t[k].runnable && Before(t, k) <= winner < Before(t, k + 1))
    ensures k < i ==> Walk(t, winner, i) != k
    decreases |t| - i
  {
    if i < |t| {
      if t[i].runnable && Before(t, i + 1) > winner {
        if i < k { BeforeGrows(t, i + 1, k); }
      } else {
        assert Before(t, i + 1) <= winner;
        WalkStopsAt(t, winner, i + 1, k);
      }
    }
  }

  /** Every number below the total picks a runnable process with tickets; process k is picked by exactly
      the `tickets` numbers of its own range. */
  lemma DrawIsFair(t: Table, winner: nat)
    requires winner < Total(t)
    ensures var k := Walk(t, winner, 0); k < |t| && t[k].runnable && t[k].tickets > 0
    ensures forall k :: 0 <= k < |t| ==> (Walk(t, winner, 0) == k <==> t[k].runnable && Before(t, k) <= winner < Before(t, k) + t[k].tickets)
  {
    forall k | 0 <= k < |t| ensures Walk(t, winner, 0) == k <==> t[k].runnable && Before(t, k) <= winner < Before(t, k) + t[k].tickets {
      WalkStopsAt(t, winner, 0, k);
      assert Before(t, k + 1) == Before(t, k) + Share(t, k);
    }
    WalkFinds(t, winner, 0);
    var k := Walk(t, winner, 0);
    WalkStopsAt(t, winner, 0, k);
  }

  lemma {:induction false} WalkFinds(t: Table, winner: nat, i: nat)
    requires i <= |t| && Before(t, i) <= winner < Total(t)
    ensures Walk(t, winner, i) < |t|
    decreases |t| - i
  {
    if i < |t| && !(t[i].runnable && Before(t, i + 1) > winner) {
      WalkFinds(t, winner, i + 1);
    }
  }

  /** The total fits the 32-bit draw with room to spare, so no process is out of reach. */
  lemma {:induction false} TotalFits(t: Table, i: nat)
    requires Legal(t) && i <= |t|
    ensures Before(t, i) <= i * MAX_TICKETS
    ensures i * MAX_TICKETS < SIZE
  {
    if i > 0 {
      TotalFits(t, i - 1);
    }
  }

  // ----- how often each process is chosen -----

  lemma {:induction false} DivStep(m: nat, t: nat)
    requires t > 0
    ensures (m + 1) / t == m / t + if (m + 1) % t == 0 then 1 else 0
  {
    var q, r := m / t, m % t;
    assert m == q * t + r;
    if r + 1 == t {
      DivIs(m + 1, t, q + 1, 0);
    } else {
      DivIs(m + 1, t, q, r + 1);
    }
  }

  lemma AtLeastOne(d: int, t: nat)
    ensures (d >= 1 ==> d * t >= t) && (d <= -1 ==> d * t <= -1 * t)
  {
  }

  lemma DivIs(m: nat, t: nat, q: nat, r: nat)
    requires t > 0 && m == q * t + r && r < t
    ensures m / t == q && m % t == r
  {
    var d := m / t - q;
    assert d * t == r - m % t;
    AtLeastOne(d, t);
  }

  /** The numbers from 1 to n that leave remainder r. */
  function Leaving(n: nat, t: nat, r: nat): set<nat>
    requires t > 0
  {
    set y: nat | 1 <= y <= n && y % t == r
  }

  lemma {:induction false} CountLeaving(n: nat, t: nat, r: nat)
    requires r < t
    ensures |Leaving(n, t, r)| == (n + t - r) / t - if r == 0 then 1 else 0
    ensures n / t <= |Leaving(n, t, r)| <= n / t + 1
  {
    if n == 0 {
      assert Leaving(0, t, r) == {};
      if r == 0 { DivIs(t, t, 1, 0); } else { DivIs(t - r, t, 0, t - r); }
      DivIs(0, t, 0, 0);
    } else {
      CountLeaving(n - 1, t, r);
      DivStep(n - 1 + t - r, t);
      SameRemainder(n, t, r);
      if n % t == r {
        assert Leaving(n, t, r) == Leaving(n - 1, t, r) + {n};
      } else {
        assert Leaving(n, t, r) == Leaving(n - 1, t, r);
      }
      Between(n, t, r);
    }
  }

  lemma SameRemainder(n: nat, t: nat, r: nat)
    requires r < t
    ensures n % t == r <==> (n + t - r) % t == 0
  {
    var q, s := n / t, n % t;
    assert n == q * t + s;
    if s >= r {
      DivIs(n + t - r, t, q + 1, s - r) by { assert (q + 1) * t == q * t + t; }
    } else {
      DivIs(n + t - r, t, q, s + t - r);
    }
  }

  lemma Between(n: nat, t: nat, r: nat)
    requires r < t
    ensures n / t <= (n + t - r) / t - (if r == 0 then 1 else 0) <= n / t + 1
  {
    var q, s := n / t, n % t;
    assert n == q * t + s;
    if s >= r {
      DivIs(n + t - r, t, q + 1, s - r) by { assert (q + 1) * t == q * t + t; }
    } else {
      DivIs(n + t - r, t, q, s + t - r);
    }
  }

  /** The numbers from 1 to n whose remainder is one of k consecutive ones. */
  function Falling(n: nat, t: nat, lo: nat, k: nat): set<nat>
    requires t > 0
  {
    set y: nat | 1 <= y <= n && lo <= y % t < lo + k
  }

  lemma {:induction false} CountFalling(n: nat, t: nat, lo: nat, k: nat)
    requires lo + k <= t && t > 0
    ensures k * (n / t) <= |Falling(n, t, lo, k)| <= k * (n / t + 1)
  {
    if k == 0 {
      assert Falling(n, t, lo, 0) == {};
    } else {
      CountFalling(n, t, lo, k - 1);
      CountLeaving(n, t, lo + k - 1);
      FallingMore(n, t, lo, k);
      OnceMore(k, n / t);
      OnceMore(k, n / t + 1);
    }
  }

  lemma FallingMore(n: nat, t: nat, lo: nat, k: nat)
    requires 0 < k && lo + k <= t
    ensures |Falling(n, t, lo, k)| == |Falling(n, t, lo, k - 1)| + |Leaving(n, t, lo + k - 1)|
  {
    var a, b := Falling(n, t, lo, k - 1), Leaving(n, t, lo + k - 1);
    assert Falling(n, t, lo, k) == a + b && a !! b;
  }

  lemma OnceMore(k: nat, d: nat)
    requires k > 0
    ensures (k - 1) * d + d == k * d
  {
  }

  /** The generator states in which the next draw picks process k. */
  function Choosing(t: Table, k: nat): set<nat>
    requires Total(t) > 0
  {
    set s: nat | 1 <= s < SIZE && Walk(t, Next(s) % Total(t), 0) == k
  }

  /** Two sets between which f and g go back and forth are equally large. */
  lemma {:induction false} SameCount(a: set<nat>, b: set<nat>, f: nat -> nat, g: nat -> nat)
    requires forall s :: s in a ==> f(s) in b && g(f(s)) == s
    requires forall y :: y in b ==> g(y) in a && f(g(y)) == y
    ensures |a| == |b|
    decreases a
  {
    if a == {} {
      assert b == {};
    } else {
      var s :| s in a;
      SameCount(a - {s}, b - {f(s)}, f, g);
    }
  }

  /** Over all nonzero generator states, runnable process k is chosen by at least tickets times the
      quotient of the state count and the total, and by at most tickets times one more. */
  lemma ChosenInProportion(t: Table, k: nat)
    requires Total(t) > 0 && k < |t| && t[k].runnable
    ensures var share := (SIZE - 1) / Total(t); t[k].tickets * share <= |Choosing(t, k)| <= t[k].tickets * (share + 1)
  {
    var total := Total(t);
    var falling := Falling(SIZE - 1, total, Before(t, k), t[k].tickets);
    assert Before(t, k + 1) == Before(t, k) + Share(t, k);
    BeforeGrows(t, k + 1, |t|);
    forall s: nat | 1 <= s < SIZE ensures s in Choosing(t, k) <==> Next(s) in falling {
      NextPermutes(s);
      DrawIsFair(t, Next(s) % total);
    }
    forall s | s in Choosing(t, k) ensures Next(s) in falling && Prev(Next(s)) == s {
      NextPermutes(s);
    }
    forall y | y in falling ensures Prev(y) in Choosing(t, k) && Next(Prev(y)) == y {
      NextPermutes(y);
    }
    SameCount(Choosing(t, k), falling, Next, Prev);
    CountFalling(SIZE - 1, total, Before(t, k), t[k].tickets);
  }

  // ----- the scheduler among other harts -----

  /** The first runnable process, or the length of the table. */
  function FirstRunnable(t: Table, i: nat): nat
    requires i <= |t|
    decreases |t| - i
  {
    if i == |t| || t[i].runnable then i else FirstRunnable(t, i + 1)
  }

  /** The process table as one hart sees it. Between any two of its critical sections other harts may
      change the table and draw numbers. `still` says that they change nothing; `stay` is a process that
      is runnable throughout, or negative. */
  class Scheduler {
    var table: Table
    var rng: nat
    const still: bool
    const stay: int

    ghost predicate Valid()
      reads this
    {
      Legal(table) && 0 < rng < SIZE && stay < NPROC && (stay >= 0 ==> table[stay].runnable)
    }

    constructor (table: Table, still: bool, stay: int)
      requires Legal(table) && stay < NPROC && (stay >= 0 ==> table[stay].runnable)
      ensures Valid() && this.table == table && rng == SEED && this.still == still && this.stay == stay
    {
      this.table, rng, this.still, this.stay := table, SEED, still, stay;
    }

    /** Whatever the other harts do before a lock is taken. */
    method Others()
      requires Valid()
      modifies this
      ensures Valid() && (still ==> table == old(table) && rng == old(rng))
    {
      var t: Table, n: int := *, *;
      if !still && |t| == NPROC && (forall i :: 0 <= i < |t| ==> t[i].tickets <= MAX_TICKETS) && (stay >= 0 ==> t[stay].runnable) && 0 < n < SIZE {
        table, rng := t, n;
      }
    }

    /** lottery_rand. */
    method LotteryRand() returns (n: nat)
      requires Valid()
      modifies this`rng
      ensures Valid() && n == rng == Next(old(rng))
    {
      NextPermutes(rng);
      rng := Next(rng);
      n := rng;
    }

    /** runnable_ticket_total. */
    method RunnableTicketTotal() returns (total: nat)
      requires Valid()
      modifies this
      ensures Valid() && total < SIZE
      ensures still ==> table == old(table) && rng == old(rng) && total == Total(table)
    {
      total := 0;
      for i := 0 to NPROC
        invariant Valid() && total <= i * MAX_TICKETS
        invariant still ==> table == old(table) && rng == old(rng) && total == Before(table, i)
      {
        Others();
        if table[i].runnable {
          total := total + table[i].tickets;
        }
      }
    }

    /** pick_first_runnable: finds someone whenever someone stays runnable. */
    method PickFirstRunnable() returns (ran: bool, who: nat)
      requires Valid()
      modifies this
      ensures Valid() && (ran ==> who < NPROC && table[who].runnable) && (stay >= 0 ==> ran)
      ensures still ==> table == old(table) && rng == old(rng) && (ran <==> FirstRunnable(table, 0) < NPROC) && (ran ==> who == FirstRunnable(table, 0))
    {
      who := 0;
      for i := 0 to NPROC
        invariant Valid() && (stay >= 0 ==> i <= stay)
        invariant still ==> table == old(table) && rng == old(rng) && FirstRunnable(table, 0) == FirstRunnable(table, i)
      {
        Others();
        if table[i].runnable {
          return true, i;
        }
      }
      ran := false;
    }

    /** draw_and_run: picks the process that holds the winning ticket, unless the table has changed since
        the tickets were counted. */
    method DrawAndRun(total: nat) returns (ran: bool, who: nat)
      requires Valid() && total > 0
      modifies this
      ensures Valid() && (ran ==> who < NPROC && table[who].runnable)
      ensures still ==> table == old(table) && rng == Next(old(rng))
      ensures still && total == Total(table) ==> ran && who == Walk(table, Next(old(rng)) % total, 0)
    {
      Others();
      var n := LotteryRand();
      var winner, cum := n % total, 0;
      who := 0;
      if still && total == Total(table) { DrawIsFair(table, winner); }
      for i := 0 to NPROC
        invariant Valid()
        invariant still ==> table == old(table) && rng == Next(old(rng)) && cum == Before(table, i)
        invariant still && total == Total(table) ==> Walk(table, winner, i) == Walk(table, winner, 0)
      {
        Others();
        if table[i].runnable {
          cum := cum + table[i].tickets;
          if cum > winner {
            return true, i;
          }
        }
      }
      ran := false;
    }

    /** schedule_lottery: whenever some process stays runnable throughout, however the rest of the table
        changes, a runnable process is run; and when nothing changes, it is the winner of one draw over
        the tickets, or the first runnable one if nobody has any. */
    method ScheduleLottery() returns (ran: bool, who: nat)
      requires Valid()
      modifies this
      ensures Valid() && (ran ==> who < NPROC && table[who].runnable) && (stay >= 0 ==> ran)
      ensures still ==> table == old(table)
      ensures still && Total(table) > 0 ==> ran && rng == Next(old(rng)) && who == Walk(table, Next(old(rng)) % Total(table), 0)
      ensures still && Total(table) == 0 ==> rng == old(rng) && (ran <==> FirstRunnable(table, 0) < NPROC) && (ran ==> who == FirstRunnable(table, 0))
    {
      for attempt := 0 to MAX_ATTEMPTS
        invariant Valid() && (still ==> table == old(table) && rng == old(rng) && (attempt > 0 ==> false))
      {
        var total := RunnableTicketTotal();
        if total == 0 {
          ran, who := PickFirstRunnable();
          return;
        }
        ran, who := DrawAndRun(total);
        if ran {
          return;
        }
      }
      ran, who := PickFirstRunnable();
    }
  }
}
