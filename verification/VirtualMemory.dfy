/** The page allocator and the operations on page tables. (projects/07-xv6plus/kernel/vm.c, kernel/kalloc.c) */
module VirtualMemory {
  import opened PageTables
  import opened MemoryChanges

  class Memory {
    const lo: nat
    const hi: nat
    const trampoline: nat  // the page of the kernel's trampoline code
    var free: seq<nat>
    var ptes: seq<seq<Pte>>
    var data: seq<seq<Byte>>
    ghost var roots: set<nat>
    ghost var held: set<nat>
    ghost var owner: map<nat, Ref>

    ghost function Now(): Mem
      reads this
    {
      Mem(lo, hi, free, ptes, data, roots, held, owner)
    }

    ghost predicate Valid()
      reads this
    {
      Owned(Now())
    }

    // ----- kalloc.c -----

    /** kinit: all pages from `lo` on are free, and there is no address space. */
    constructor (lo: nat, hi: nat, trampoline: nat)
      requires 0 < lo <= hi
      ensures Valid() && this.lo == lo && this.hi == hi && this.trampoline == trampoline && roots == {} && held == {} && |free| == hi - lo
    {
      this.lo, this.hi, this.trampoline := lo, hi, trampoline;
      free, roots, held, owner := [], {}, {}, map[];
      ptes := seq(hi, _ => ZeroTable());
      data := seq(hi, _ => ZeroPage());
      new;
      Freerange();
    }

    /** freerange over all of memory. */
    method Freerange()
      requires 0 < lo <= hi && |ptes| == |data| == hi && free == [] && roots == {} && held == {} && owner == map[]
      requires forall p :: 0 <= p < hi ==> |ptes[p]| == 512 && |data[p]| == 4096
      modifies this`free, this`ptes, this`data
      ensures Valid() && |free| == hi - lo
    {
      var p := lo;
      while p < hi
        invariant lo <= p <= hi && |ptes| == |data| == hi && |free| == p - lo
        invariant forall q :: 0 <= q < hi ==> |ptes[q]| == 512 && |data[q]| == 4096
        invariant forall k :: 0 <= k < |free| ==> free[k] == p - 1 - k
      {
        Kfree(p);
        p := p + 1;
      }
      AllFree(Now());
    }

    /** kfree: the page is filled with junk and goes in front of the free list. */
    method Kfree(p: nat)
      requires lo <= p < hi && |ptes| == |data| == hi
      modifies this`free, this`ptes, this`data
      ensures free == [p] + old(free) && ptes == old(ptes)[p := JunkTable(1)] && data == old(data)[p := JunkPage(1)]
    {
      ptes := ptes[p := JunkTable(1)];
      data := data[p := JunkPage(1)];
      free := [p] + free;
    }

    /** kalloc: the first free page, full of junk, or 0 if there is none. */
    method Kalloc() returns (p: nat)
      requires Valid()
      modifies this`free, this`ptes, this`data, this`held
      ensures Valid()
      ensures p == 0 <==> old(free) == []
      ensures p == 0 ==> Now() == old(Now())
      ensures p != 0 ==> p in held && p !in old(held) && Fetched(old(Now()), Now(), p, JunkTable(5), JunkPage(5))
      ensures forall r :: Slot(Now(), r) == Slot(old(Now()), r)
    {
      ghost var s := Now();
      p := 0;
      if free != [] {
        p := free[0];
        assert p in free && GoodPage(s, p);
        TakenIsOwned(s);
        free := free[1..];
        held := held + {p};
        assert GoodPage(Now(), p);
        FilledIsOwned(Now(), p, JunkTable(5), JunkPage(5));
        ptes := ptes[p := JunkTable(5)];
        data := data[p := JunkPage(5)];
      }
    }

    /** kalloc and memset to zero, the way all callers in vm.c but uvmcopy use it. */
    method KallocZeroed() returns (p: nat)
      requires Valid()
      modifies this`free, this`ptes, this`data, this`held
      ensures Valid()
      ensures p == 0 <==> old(free) == []
      ensures p == 0 ==> Now() == old(Now())
      ensures p != 0 ==> p in held && p !in old(held) && Fetched(old(Now()), Now(), p, ZeroTable(), ZeroPage())
      ensures forall r :: Slot(Now(), r) == Slot(old(Now()), r)
    {
      p := Kalloc();
      if p != 0 {
        assert GoodPage(Now(), p);
        FilledIsOwned(Now(), p, ZeroTable(), ZeroPage());
        ptes := ptes[p := ZeroTable()];
        data := data[p := ZeroPage()];
      }
    }

    /** A page that kalloc gave goes back. */
    method GiveBack(p: nat)
      requires Valid() && p in held && p < |ptes| && p < |data|
      modifies this`free, this`ptes, this`data, this`held
      ensures Valid()
      ensures Now() == Returned(Filled(old(Now()), p, JunkTable(1), JunkPage(1)), p)
      ensures forall r :: Slot(Now(), r) == Slot(old(Now()), r)
    {
      assert GoodPage(Now(), p);
      FilledIsOwned(Now(), p, JunkTable(1), JunkPage(1));
      ReturnedIsOwned(Filled(Now(), p, JunkTable(1), JunkPage(1)), p);
      Kfree(p);
      held := held - {p};
    }

    // ----- walk -----

    /** One level of walk: the page table that entry `r` of `page` points to, made if `alloc` asks for it. */
    method Descend(ghost r: Ref, page: nat, k: nat, alloc: bool) returns (next: nat)
      requires Valid() && 0 < r.level < 3 && Slot(Now(), Up(r)).v && Slot(Now(), Up(r)).ppn == page && k == r.n % 512
      modifies this`free, this`ptes, this`data, this`held, this`owner
      ensures Valid() && Changes(old(Now()), Now(), r.i, 0, 0) && held == old(held)
      ensures !alloc || next == 0 ==> Now() == old(Now())
      ensures |free| + 1 >= |old(free)|
      ensures if next == 0 then !Slot(Now(), r).v && (alloc ==> free == []) else Slot(Now(), r).v && Slot(Now(), r).ppn == next
    {
      ghost var s := Now();
      ParentIsTable(s, r);
      NothingChanges(s, r.i, 0);
      assert GoodRef(s, r);
      var e := ptes[page][k];
      if e.v {
        return e.ppn;
      }
      if !alloc {
        return 0;
      }
      next := KallocZeroed();
      if next != 0 {
        HangTable(s, r, page, k, next);
      }
    }

    /** The new page table gets its place. */
    method HangTable(ghost s: Mem, ghost r: Ref, page: nat, k: nat, next: nat)
      requires Owned(s) && 0 < r.level < 3 && Slot(s, Up(r)).v && Slot(s, Up(r)).ppn == page && k == r.n % 512 && !Slot(s, r).v
      requires Valid() && Fetched(s, Now(), next, ZeroTable(), ZeroPage()) && forall q :: Slot(Now(), q) == Slot(s, q)
      modifies this`ptes, this`held, this`owner
      ensures Valid() && Changes(s, Now(), r.i, 0, 0) && held == s.held && Slot(Now(), r) == TableEntry(next)
      ensures free == old(free)
    {
      ghost var u := Now();
      ParentIsTable(u, r);
      HungIsOwned(u, r, TableEntry(next));
      ptes := ptes[page := ptes[page][k := TableEntry(next)]];
      held := held - {next};
      owner := owner[next := r];
      assert Now() == Hung(u, r, TableEntry(next));
      assert GoodPage(s, next);
      forall q ensures Stays(s, Now(), r.i, 0, 0, q) { assert GoodRef(s, q); }
    }

    /** walk: the last-level page table for virtual page v, made if `alloc` asks for it; 0 if there is none
        or memory has run out. */
    method Walk(i: nat, v: nat, alloc: bool) returns (page: nat)
      requires Valid() && i in roots && v <= TRAMPOLINE
      modifies this`free, this`ptes, this`data, this`held, this`owner
      ensures Valid() && Changes(old(Now()), Now(), i, 0, 0) && held == old(held)
      ensures !alloc ==> Now() == old(Now())
      ensures |free| + 2 >= |old(free)|
      ensures page == 0 ==> !Slot(Now(), Up(Leaf(i, v))).v && (alloc ==> free == [] && |old(free)| <= 1)
      ensures page != 0 ==> Slot(Now(), Up(Leaf(i, v))).v && Slot(Now(), Up(Leaf(i, v))).ppn == page && Ram(Now(), page)
    {
      ghost var s := Now();
      IndexOfRoot(v);
      NothingChanges(s, i, 0);
      page := i;
      var level := 2;
      while level > 0
        invariant 0 <= level <= 2 && Valid() && Changes(s, Now(), i, 0, 0) && held == s.held && (!alloc ==> Now() == s) && |free| + 2 >= |s.free| + level
        invariant Slot(Now(), Ref(i, level + 1, Index(v, level + 1))).v && Slot(Now(), Ref(i, level + 1, Index(v, level + 1))).ppn == page
      {
        ghost var t := Now();
        var next := Descend(Ref(i, level, Index(v, level)), page, Index(v, level) % 512, alloc);
        ChangesThrough(s, t, Now(), i, 0, 0);
        if next == 0 {
          NoWayDown(Now(), i, v, level);
          return 0;
        }
        page := next;
        level := level - 1;
      }
      assert GoodRef(Now(), Up(Leaf(i, v)));
    }

    // ----- mapping and unmapping -----

    /** The entry of a virtual page is written. */
    method HangLeaf(page: nat, i: nat, v: nat, e: Pte)
      requires Valid() && CanHang(Now(), Leaf(i, v), e) && page == Slot(Now(), Up(Leaf(i, v))).ppn
      modifies this`ptes, this`held, this`owner
      ensures Valid() && Changes(old(Now()), Now(), i, v, v + 1) && Lookup(Now(), i, v) == e
      ensures held == (if v < TRAPFRAME then old(held) - {e.ppn} else old(held))
    {
      ghost var s := Now();
      ParentIsTable(s, Leaf(i, v));
      HungIsOwned(s, Leaf(i, v), e);
      ptes := ptes[page := ptes[page][v % 512 := e]];
      if v < TRAPFRAME {
        held := held - {e.ppn};
        owner := owner[e.ppn := Leaf(i, v)];
      }
      ghost var b := v + 1;
      assert Now() == Hung(s, Leaf(i, v), e);
      forall q ensures Stays(s, Now(), i, v, b, q) { }
    }

    /** One turn of mappages' loop: virtual page v is mapped to page p, unless memory runs out. */
    method MapOne(i: nat, v: nat, p: nat, perm: Pte) returns (ok: bool)
      requires Valid() && i in roots && v <= TRAMPOLINE && IsLeaf(perm) && (v < TRAPFRAME ==> p in held)
      requires !Lookup(Now(), i, v).v
      modifies this`free, this`ptes, this`data, this`held, this`owner
      ensures Valid() && Changes(old(Now()), Now(), i, v, v + 1)
      ensures Lookup(Now(), i, v) == if ok then perm.(ppn := p, v := true) else ZERO
      ensures held == if ok && v < TRAPFRAME then old(held) - {p} else old(held)
      ensures (!ok ==> free == [] && |old(free)| <= 1) && |free| + 2 >= |old(free)|
      ensures v < TRAPFRAME ==> Page(Now(), p) == Page(old(Now()), p)
    {
      ghost var s := Now();
      var page := Walk(i, v, true);
      ghost var u := Now();
      ChangesMore(s, u, i, 0, 0, v, v + 1);
      assert Stays(s, u, i, 0, 0, Leaf(i, v)) && GoodRef(u, Leaf(i, v));
      assert Page(u, p) == Page(u, p);
      ok := page != 0;
      if ok {
        HangLeaf(page, i, v, perm.(ppn := p, v := true));
        ChangesThrough(s, u, Now(), i, v, v + 1);
      }
    }

    /** mappages: n virtual pages from v on are mapped to n pages from p on. If memory runs out, only the
        first `done` of them are. */
    method Mappages(i: nat, v: nat, n: nat, p: nat, perm: Pte) returns (ok: bool, ghost done: nat)
      requires Valid() && i in roots && n > 0 && v + n - 1 <= TRAMPOLINE && IsLeaf(perm)
      requires v >= TRAPFRAME || (v + n <= TRAPFRAME && forall k: nat :: p <= k < p + n ==> k in held)
      requires forall w: nat {:trigger Lookup(Now(), i, w)} :: v <= w < v + n ==> !Lookup(Now(), i, w).v
      modifies this`free, this`ptes, this`data, this`held, this`owner
      ensures Valid() && Changes(old(Now()), Now(), i, v, v + n)
      ensures ok <==> done == n
      ensures done <= n && (!ok ==> free == [] && |old(free)| <= 2 * done + 1) && |free| + 2 * n >= |old(free)|
      ensures forall w: nat {:trigger Lookup(Now(), i, w)} :: v <= w < v + n ==>
                Lookup(Now(), i, w) == if w < v + done then perm.(ppn := p + (w - v), v := true) else ZERO
      ensures held == if v < TRAPFRAME then old(held) - Range(p, p + done) else old(held)
      ensures v < TRAPFRAME ==> forall k: nat {:trigger Page(Now(), k)} :: p <= k < p + n ==> Page(Now(), k) == Page(old(Now()), k)
    {
      ghost var s := Now();
      NothingChanges(s, i, v);
      ChangesMore(s, s, i, v, v, v, v + n);
      var k := 0;
      done := 0;
      forall w: nat | v <= w < v + n ensures Lookup(s, i, w) == ZERO { assert GoodRef(s, Leaf(i, w)); }
      while true
        invariant k == done < n && Valid() && Changes(s, Now(), i, v, v + n) && |free| + 2 * k >= |s.free|
        invariant held == if v < TRAPFRAME then s.held - Range(p, p + k) else s.held
        invariant forall w: nat {:trigger Lookup(Now(), i, w)} :: v <= w < v + n ==>
                    Lookup(Now(), i, w) == if w < v + k then perm.(ppn := p + (w - v), v := true) else ZERO
        invariant v < TRAPFRAME ==> forall c: nat {:trigger Page(Now(), c)} :: p <= c < p + n ==> Page(Now(), c) == Page(s, c)
        decreases n - k
      {
        ghost var t := Now();
        ok := MapOne(i, v + k, p + k, perm);
        MappedOneMore(s, t, Now(), i, v, n, p, k, ok, perm);
        if !ok {
          return;
        }
        done := done + 1;
        k := k + 1;
        if k == n {
          return;
        }
      }
    }

    /** One turn of uvmunmap's loop. */
    method UnmapOne(i: nat, v: nat, doFree: bool)
      requires Valid() && i in roots && v <= TRAMPOLINE && (doFree <==> v < TRAPFRAME)
      modifies this`free, this`ptes, this`data, this`held, this`owner
      ensures Valid() && Changes(old(Now()), Now(), i, v, v + 1) && Lookup(Now(), i, v) == ZERO
      ensures |free| >= |old(free)| && held == old(held)
    {
      ghost var s, b := Now(), v + 1;
      NothingChanges(s, i, v);
      ChangesMore(s, s, i, v, v, v, b);
      assert GoodRef(s, Leaf(i, v));
      var page := Walk(i, v, false);
      if page == 0 {
        return;
      }
      var e := ptes[page][v % 512];
      if !e.v {
        return;
      }
      if doFree {
        DroppedIsOwned(s, Leaf(i, v));
        Kfree(e.ppn);
        owner := owner - {e.ppn};
      } else {
        CutIsOwned(s, Leaf(i, v));
      }
      ptes := ptes[page := ptes[page][v % 512 := ZERO]];
      assert Now() == if doFree then Dropped(s, Leaf(i, v)) else Cut(s, Leaf(i, v));
      ClearedChanges(s, Now(), i, v);
    }

    /** uvmunmap: n virtual pages from v on are not mapped any more. What a process owned is freed; the
        trampoline and the trapframe are not. */
    method Uvmunmap(i: nat, v: nat, n: nat, doFree: bool)
      requires Valid() && i in roots && v + n <= TRAMPOLINE + 1
      requires if doFree then v + n <= TRAPFRAME else TRAPFRAME <= v
      modifies this`free, this`ptes, this`data, this`held, this`owner
      ensures Valid() && Changes(old(Now()), Now(), i, v, v + n) && |free| >= |old(free)| && held == old(held)
      ensures forall w: nat {:trigger Lookup(Now(), i, w)} :: v <= w < v + n ==> Lookup(Now(), i, w) == ZERO
    {
      ghost var s, b := Now(), v + n;
      NothingChanges(s, i, v);
      ChangesMore(s, s, i, v, v, v, b);
      var a := v;
      while a < v + n
        invariant v <= a <= v + n && Valid() && Changes(s, Now(), i, v, b) && |free| >= |s.free| && held == s.held
        invariant forall w: nat {:trigger Lookup(Now(), i, w)} :: v <= w < a ==> Lookup(Now(), i, w) == ZERO
      {
        ghost var t, c := Now(), a + 1;
        UnmapOne(i, a, doFree);
        ChangesMore(t, Now(), i, a, c, v, b);
        ChangesThrough(s, t, Now(), i, v, b);
        forall w: nat | v <= w < c ensures Lookup(Now(), i, w) == ZERO {
          assert w < a ==> Lookup(t, i, w) == ZERO && Stays(t, Now(), i, a, c, Leaf(i, w));
        }
        a := a + 1;
      }
    }

    // ----- growing and shrinking -----

    /** A fresh page of zeros at virtual page v, as uvmalloc and vmfault get it; or nothing at all, and then
        there were at most two free pages. */
    method GrowOne(i: nat, v: nat, perm: Pte) returns (p: nat)
      requires Valid() && i in roots && v < TRAPFRAME && IsLeaf(perm) && !Lookup(Now(), i, v).v
      modifies this`free, this`ptes, this`data, this`held, this`owner
      ensures Valid() && held == old(held) && |free| + 3 >= |old(free)|
      ensures p == 0 ==> Changes(old(Now()), Now(), i, v, v) && |old(free)| < 3
      ensures p != 0 ==> Changes(old(Now()), Now(), i, v, v + 1) && Fresh(Now(), i, v, perm) && Lookup(Now(), i, v).ppn == p
    {
      ghost var s, b := Now(), v + 1;
      NothingChanges(s, i, v);
      p := KallocZeroed();
      if p == 0 {
        return;
      }
      ghost var u := Now();
      assert GoodPage(s, p) && GoodPage(u, p);
      assert forall w: nat {:trigger Lookup(u, i, w)} :: v <= w < b ==> w == v;
      var ok; ghost var done;
      ok, done := Mappages(i, v, 1, p, perm);
      ghost var t := Now();
      assert Lookup(t, i, v) == if ok then perm.(ppn := p, v := true) else ZERO;
      assert Page(t, p) == Page(u, p);
      FetchedChanges(s, u, t, i, v, b, p, ZeroTable(), ZeroPage());
      if !ok {
        GiveBack(p);
        UndoneChanges(s, t, Now(), i, v, p);
        p := 0;
      }
    }

    /** uvmalloc: virtual pages of zeros from the old size to the new one; or, if memory runs out, no page
        more than before. Three free pages for each new one are enough. */
    method Uvmalloc(i: nat, oldsz: nat, newsz: nat, xperm: Pte) returns (r: nat)
      requires Valid() && i in roots && Pages(newsz) <= TRAPFRAME
      requires forall w: nat {:trigger Lookup(Now(), i, w)} :: Pages(oldsz) <= w < Pages(newsz) ==> !Lookup(Now(), i, w).v
      modifies this`free, this`ptes, this`data, this`held, this`owner
      ensures Valid() && held == old(held)
      ensures newsz < oldsz ==> r == oldsz && Now() == old(Now())
      ensures newsz >= oldsz ==> r == newsz || r == 0
      ensures newsz >= oldsz && r == newsz ==> Changes(old(Now()), Now(), i, Pages(oldsz), Pages(newsz)) && AllFresh(Now(), i, Pages(oldsz), Pages(newsz), xperm.(r := true, u := true))
      ensures newsz >= oldsz && r != newsz ==> Changes(old(Now()), Now(), i, 0, 0) && |old(free)| < 3 * (Pages(newsz) - Pages(oldsz))
    {
      if newsz < oldsz {
        return oldsz;
      }
      ghost var s, a, b, perm := Now(), Pages(oldsz), Pages(newsz), xperm.(r := true, u := true);
      NothingChanges(s, i, a);
      ChangesMore(s, s, i, a, a, a, b);
      var v := Pages(oldsz);
      while v * 4096 < newsz
        invariant a <= v <= b && Valid() && held == s.held && Changes(s, Now(), i, a, b) && AllFresh(Now(), i, a, v, perm)
        invariant forall w: nat {:trigger Lookup(Now(), i, w)} :: v <= w < b ==> !Lookup(Now(), i, w).v
        invariant |free| + 3 * (v - a) >= |s.free|
        decreases b - v
      {
        ghost var t, c := Now(), v + 1;
        var p := GrowOne(i, v, xperm.(r := true, u := true));
        ghost var u := Now();
        if p == 0 {
          ChangesMore(t, u, i, v, v, a, b);
          ChangesThrough(s, t, u, i, a, b);
          StillUnmapped(t, u, i, v, v, v, b);
          NothingChanges(u, i, a);
          r := Uvmdealloc(i, v * 4096, Pages(oldsz) * 4096);
          ChangesMore(u, Now(), i, a, v, a, b);
          ChangesThrough(s, u, Now(), i, a, b);
          StillUnmapped(u, Now(), i, a, v, v, b);
          UndoneRange(s, Now(), i, a, b);
          return 0;
        }
        ChangesMore(t, u, i, v, c, a, b);
        ChangesThrough(s, t, u, i, a, b);
        StillFresh(t, u, i, a, v, perm);
        StillUnmapped(t, u, i, v, c, c, b);
        v := v + 1;
      }
      r := newsz;
    }

    /** uvmdealloc: the pages between the new size and the old one are gone. */
    method Uvmdealloc(i: nat, oldsz: nat, newsz: nat) returns (r: nat)
      requires Valid() && i in roots && Pages(oldsz) <= TRAPFRAME
      modifies this`free, this`ptes, this`data, this`held, this`owner
      ensures Valid() && held == old(held) && |free| >= |old(free)|
      ensures newsz >= oldsz ==> r == oldsz && Now() == old(Now())
      ensures newsz < oldsz ==> r == newsz && Changes(old(Now()), Now(), i, Pages(newsz), Pages(oldsz))
      ensures forall w: nat {:trigger Lookup(Now(), i, w)} :: newsz < oldsz && Pages(newsz) <= w < Pages(oldsz) ==> Lookup(Now(), i, w) == ZERO
    {
      if newsz >= oldsz {
        return oldsz;
      }
      NothingChanges(Now(), i, Pages(newsz));
      if Pages(newsz) < Pages(oldsz) {
        Uvmunmap(i, Pages(newsz), Pages(oldsz) - Pages(newsz), true);
      }
      r := newsz;
    }

    // ----- page faults -----

    /** vmfault: a page of zeros where the process has none yet and may have one. */
    method Vmfault(i: nat, sz: nat, va: nat, read: bool) returns (p: nat, fault: Fault)
      requires Valid() && i in roots && Pages(sz) <= TRAPFRAME
      modifies this`free, this`ptes, this`data, this`held, this`owner
      ensures Valid() && held == old(held)
      ensures p == 0 ==> Changes(old(Now()), Now(), i, 0, 0)
      ensures p != 0 ==> fault == PagedIn && va < sz && !Lookup(old(Now()), i, va / 4096).v && Lookup(Now(), i, va / 4096).ppn == p
                         && Changes(old(Now()), Now(), i, va / 4096, va / 4096 + 1) && Fresh(Now(), i, va / 4096, Pte(0, true, true, true, false, true))
      ensures va < sz && !Lookup(old(Now()), i, va / 4096).v && |old(free)| >= 3 ==> p != 0
      ensures fault == NotCounted <==> va < sz && var e := Lookup(old(Now()), i, va / 4096); e.v && (if read then e.r else e.w)
    {
      NothingChanges(Now(), i, 0);
      if va >= sz {
        return 0, Failed;
      }
      var v := va / 4096;
      var page := Walk(i, v, false);
      if page != 0 && ptes[page][v % 512].v {
        var e := ptes[page][v % 512];
        return 0, if if read then e.r else e.w then NotCounted else Failed;
      }
      assert !Lookup(Now(), i, v).v;
      ghost var s := Now();
      p := GrowOne(i, v, Pte(0, true, true, true, false, true));
      if p == 0 { ChangesMore(s, Now(), i, v, v, 0, 0); }
      fault := if p == 0 then Failed else PagedIn;
    }

    // ----- copying -----

    /** kalloc and memmove from page `from`, as uvmcopy does it. */
    method KallocCopy(from: nat) returns (p: nat)
      requires Valid() && from in owner
      modifies this`free, this`ptes, this`data, this`held
      ensures Valid()
      ensures p == 0 <==> old(free) == []
      ensures p == 0 ==> Now() == old(Now())
      ensures p != 0 ==> p in held && p !in old(held) && Fetched(old(Now()), Now(), p, JunkTable(5), Page(old(Now()), from))
      ensures forall r :: Slot(Now(), r) == Slot(old(Now()), r)
    {
      assert GoodPage(Now(), from);
      p := Kalloc();
      if p != 0 {
        assert GoodPage(Now(), p);
        FilledIsOwned(Now(), p, JunkTable(5), data[from]);
        assert ptes == ptes[p := JunkTable(5)];
        data := data[p := data[from]];
      }
    }

    /** One turn of uvmcopy's loop: page `from`, which virtual page v of i is mapped to by e, is copied for
        j; or nothing is, and then there were at most two free pages. */
    method CopyPage(ghost i: nat, j: nat, v: nat, e: Pte) returns (ok: bool)
      requires Valid() && j in roots && i != j && v < TRAPFRAME && e == Lookup(Now(), i, v) && e.v && !Lookup(Now(), j, v).v
      modifies this`free, this`ptes, this`data, this`held, this`owner
      ensures Valid() && held == old(held) && |free| + 3 >= |old(free)|
      ensures !ok ==> Changes(old(Now()), Now(), j, v, v) && |old(free)| < 3
      ensures ok ==> Changes(old(Now()), Now(), j, v, v + 1) && Copied(old(Now()), Now(), i, j, v)
    {
      ghost var s, b := Now(), v + 1;
      assert GoodRef(s, Leaf(i, v));
      NothingChanges(s, j, v);
      var p := KallocCopy(e.ppn);
      if p == 0 {
        return false;
      }
      ghost var u := Now();
      assert GoodPage(s, p) && GoodPage(u, p);
      assert forall w: nat {:trigger Lookup(u, j, w)} :: v <= w < b ==> w == v;
      ghost var done;
      ok, done := Mappages(j, v, 1, p, e);
      ghost var t := Now();
      assert Lookup(t, j, v) == if ok then e.(ppn := p, v := true) else ZERO;
      assert Page(t, p) == Page(u, p);
      FetchedChanges(s, u, t, j, v, b, p, JunkTable(5), Page(s, e.ppn));
      if !ok {
        GiveBack(p);
        UndoneChanges(s, t, Now(), j, v, p);
      }
    }

    /** uvmcopy: j gets what i has below the size, page by page in pages of its own; or, if memory runs out,
        nothing. Three free pages for each one are enough. */
    method Uvmcopy(i: nat, j: nat, sz: nat) returns (ok: bool)
      requires Valid() && i in roots && j in roots && i != j && Pages(sz) <= TRAPFRAME
      requires forall w: nat {:trigger Lookup(Now(), j, w)} :: w < Pages(sz) ==> !Lookup(Now(), j, w).v
      modifies this`free, this`ptes, this`data, this`held, this`owner
      ensures Valid() && held == old(held)
      ensures ok ==> Changes(old(Now()), Now(), j, 0, Pages(sz)) && AllCopied(old(Now()), Now(), i, j, Pages(sz))
      ensures !ok ==> Changes(old(Now()), Now(), j, 0, 0) && |old(free)| < 3 * Pages(sz)
    {
      ghost var s, n := Now(), Pages(sz);
      NothingChanges(s, j, 0);
      ChangesMore(s, s, j, 0, 0, 0, n);
      var v := 0;
      while v * 4096 < sz
        invariant 0 <= v <= n && Valid() && held == s.held && Changes(s, Now(), j, 0, n) && AllCopied(s, Now(), i, j, v)
        invariant forall w: nat {:trigger Lookup(Now(), j, w)} :: v <= w < n ==> !Lookup(Now(), j, w).v
        invariant |free| + 3 * v >= |s.free|
        decreases n - v
      {
        ghost var t := Now();
        ok := CopyOne(s, i, j, v, n);
        if !ok {
          ghost var u := Now();
          Uvmunmap(j, 0, v, true);
          ChangesMore(u, Now(), j, 0, v, 0, n);
          ChangesThrough(s, u, Now(), j, 0, n);
          StillUnmapped(u, Now(), j, 0, v, v, n);
          UndoneRange(s, Now(), j, 0, n);
          return;
        }
        v := v + 1;
      }
      ok := true;
    }

    method CopyOne(ghost s: Mem, i: nat, j: nat, v: nat, ghost n: nat) returns (ok: bool)
      requires Valid() && i in roots && j in roots && i != j && v < n <= TRAPFRAME
      requires Changes(s, Now(), j, 0, n) && AllCopied(s, Now(), i, j, v)
      requires forall w: nat {:trigger Lookup(Now(), j, w)} :: v <= w < n ==> !Lookup(Now(), j, w).v
      modifies this`free, this`ptes, this`data, this`held, this`owner
      ensures Valid() && held == old(held) && Changes(s, Now(), j, 0, n) && |free| + 3 >= |old(free)|
      ensures if ok then AllCopied(s, Now(), i, j, v + 1) else |old(free)| < 3
      ensures forall w: nat {:trigger Lookup(Now(), j, w)} :: (if ok then v + 1 else v) <= w < n ==> !Lookup(Now(), j, w).v
    {
      ghost var t, c := Now(), v + 1;
      assert Stays(s, t, j, 0, n, Leaf(i, v)) && GoodRef(t, Leaf(j, v));
      var page := Walk(i, v, false);
      if page == 0 {
        StillCopied(s, t, t, i, j, v, v);
        return true;
      }
      var e := ptes[page][v % 512];
      if !e.v {
        StillCopied(s, t, t, i, j, v, v);
        return true;
      }
      assert e == Lookup(Now(), i, v);
      ok := CopyPage(i, j, v, e);
      ChangesMore(t, Now(), j, v, if ok then c else v, 0, n);
      ChangesThrough(s, t, Now(), j, 0, n);
      StillUnmapped(t, Now(), j, v, if ok then c else v, if ok then c else v, n);
      if ok { StillCopied(s, t, Now(), i, j, v, c); }
    }

    // ----- page tables as a whole -----

    /** uvmcreate: an empty address space. */
    method Uvmcreate() returns (i: nat)
      requires Valid()
      modifies this`free, this`ptes, this`data, this`held, this`roots, this`owner
      ensures Valid()
      ensures i == 0 ==> Now() == old(Now()) && free == []
      ensures i != 0 ==> i !in old(roots) && roots == old(roots) + {i} && Others(old(Now()), Now(), i) && |free| + 1 == |old(free)|
      ensures i != 0 ==> forall v: nat {:trigger Lookup(Now(), i, v)} :: !Lookup(Now(), i, v).v
    {
      ghost var s := Now();
      i := KallocZeroed();
      if i != 0 {
        ghost var u := Now();
        assert GoodPage(s, i) && GoodPage(u, i) && GoodRef(s, Ref(i, 3, 0));
        RootedIsOwned(u, i);
        roots := roots + {i};
        held := held - {i};
        owner := owner[i := Ref(i, 3, 0)];
        assert Now() == Rooted(u, i);
        NewRoot(s, u, Now(), i);
      }
    }

    /** freewalk: the page table at r and all those under it are freed. The entry that points to it stays
        for the caller to clear. The panic for a leaf needs a leaf. */
    method Freewalk(page: nat, ghost r: Ref)
      requires Valid() && 0 < r.level && Slot(Now(), r).v && Slot(Now(), r).ppn == page && NoLeaves(Now(), r)
      modifies this`free, this`ptes, this`data, this`owner
      ensures CanUnlink(Now(), r, Slot(old(Now()), Up(r)).ppn)
      ensures var t := Unlinked(Now(), r, Slot(old(Now()), Up(r)).ppn); Owned(t) && Gone(old(Now()), t, r)
      decreases r.level
    {
      ghost var s := Now();
      assert GoodRef(s, r);
      if r.level < 3 { ParentIsTable(s, r); }
      var k := 0;
      while k < 512
        invariant 0 <= k <= 512 && Valid() && Swept(s, Now(), r, k)
      {
        FreeEntry(s, page, k, r);
        k := k + 1;
      }
      FreeRoot(s, page, r);
    }

    /** One turn of freewalk's loop. */
    method FreeEntry(ghost s: Mem, page: nat, k: nat, ghost r: Ref)
      requires Valid() && 0 < r.level && k < 512 && Swept(s, Now(), r, k) && Slot(s, r).v && Slot(s, r).ppn == page && NoLeaves(s, r)
      modifies this`free, this`ptes, this`data, this`owner
      ensures Valid() && Swept(s, Now(), r, k + 1)
      decreases r.level, 0
    {
      ghost var t, c := Now(), Child(r, k);
      BelowMore(r, r, k);
      assert Slot(t, r) == Slot(s, r) && GoodRef(t, r) && GoodPage(t, page) && GoodRef(t, c);
      ChildOf(c, r, k);
      var e := ptes[page][k];
      assert Slot(t, c) == e;
      if e.v && !IsLeaf(e) {
        SweptLeaves(s, t, r, k);
        Freewalk(e.ppn, c);
        ghost var u := Now();
        ptes := ptes[page := ptes[page][k := ZERO]];
        assert Now() == Unlinked(u, c, page);
        SweptMore(s, t, Now(), r, k);
      } else if e.v {
        LeafUnder(s, t, r, k);
        assert false;
      } else {
        SweptPast(s, t, r, k);
      }
    }

    /** The end of freewalk: the emptied page table itself. */
    method FreeRoot(ghost s: Mem, page: nat, ghost r: Ref)
      requires Valid() && Owned(s) && 0 < r.level && Swept(s, Now(), r, 512) && Slot(s, r).v && Slot(s, r).ppn == page
      modifies this`free, this`ptes, this`data, this`owner
      ensures CanUnlink(Now(), r, Slot(s, Up(r)).ppn)
      ensures var t := Unlinked(Now(), r, Slot(s, Up(r)).ppn); Owned(t) && Gone(s, t, r)
    {
      ghost var t := Now();
      assert !Below(r, r, 512) && !Below(Up(r), r, 512);
      assert Slot(t, r) == Slot(s, r) && Slot(t, Up(r)) == Slot(s, Up(r)) && GoodRef(t, r) && GoodPage(t, page);
      EmptyTable(s, t, r);
      DroppedIsOwned(t, r);
      if r.level < 3 { ParentIsTable(t, r); }
      Kfree(page);
      owner := owner - {page};
      assert Unlinked(Now(), r, Slot(s, Up(r)).ppn) == Dropped(t, r);
      SweptAll(s, t, Dropped(t, r), r);
    }

    /** uvmfree: the address space is gone. */
    method Uvmfree(i: nat, sz: nat)
      requires Valid() && i in roots && Pages(sz) <= TRAPFRAME
      requires forall v: nat {:trigger Lookup(Now(), i, v)} :: Lookup(Now(), i, v).v ==> v < Pages(sz)
      modifies this`free, this`ptes, this`data, this`held, this`roots, this`owner
      ensures Valid() && roots == old(roots) - {i} && Others(old(Now()), Now(), i)
    {
      ghost var s := Now();
      NothingChanges(s, i, 0);
      if sz > 0 {
        Uvmunmap(i, 0, Pages(sz), true);
      }
      ghost var t := Now();
      assert Changes(s, t, i, 0, Pages(sz));
      forall v: nat ensures !Lookup(t, i, v).v {
        if v >= Pages(sz) { assert !Lookup(s, i, v).v && Stays(s, t, i, 0, Pages(sz), Leaf(i, v)); }
      }
      NoLeavesLeft(t, i);
      Freewalk(i, Ref(i, 3, 0));
      roots := roots - {i};
      OthersFromChanges(s, t, i, 0, Pages(sz));
      OthersFromGone(t, Now(), i);
      OthersThrough(s, t, Now(), i);
    }

    /** uvmclear: user code may not touch a page any more. */
    method Uvmclear(i: nat, v: nat)
      requires Valid() && i in roots && v <= TRAMPOLINE && Lookup(Now(), i, v).v
      modifies this`free, this`ptes, this`data, this`held, this`owner
      ensures Valid() && Others(old(Now()), Now(), i)
      ensures forall r :: Slot(Now(), r) == if r == Leaf(i, v) then Slot(old(Now()), r).(u := false) else Slot(old(Now()), r)
      ensures data == old(data) && free == old(free)
    {
      ghost var s := Now();
      var page := Walk(i, v, false);
      ptes := ptes[page := ptes[page][v % 512 := ptes[page][v % 512].(u := false)]];
      ClosedIsOwned(s, Now(), i, v);
    }

    /** walkaddr: the page that user code reaches at virtual page v, 0 if none. */
    method Walkaddr(i: nat, v: nat) returns (p: nat)
      requires Valid() && i in roots
      modifies this`free, this`ptes, this`data, this`held, this`owner
      ensures Now() == old(Now())
      ensures p == UserPage(Now(), i, v)
    {
      if v > TRAMPOLINE {
        return 0;
      }
      var page := Walk(i, v, false);
      if page == 0 {
        return 0;
      }
      var e := ptes[page][v % 512];
      p := if e.v && e.u then e.ppn else 0;
    }

    // ----- processes -----

    /** proc_pagetable: an address space with the trampoline and a trapframe, out of reach for user code, and nothing else; or nothing has
        happened, and there were at most four free pages. */
    method ProcPagetable(trapframe: nat) returns (i: nat)
      requires Valid()
      modifies this`free, this`ptes, this`data, this`held, this`roots, this`owner
      ensures Valid()
      ensures i == 0 ==> Intact(old(Now()), Now()) && |free| == |old(free)| && |old(free)| <= 4
      ensures i != 0 ==> i !in old(roots) && roots == old(roots) + {i} && Others(old(Now()), Now(), i) && Tidy(Now(), i, 0, trampoline)
      ensures |free| + 5 >= |old(free)|
      ensures i != 0 ==> Lookup(Now(), i, TRAMPOLINE) == TrampolineEntry(trampoline) && Lookup(Now(), i, TRAPFRAME) == TrapframeEntry(trapframe)
    {
      ghost var s := Now();
      i := Uvmcreate();
      if i == 0 {
        IntactItself(s);
        return;
      }
      ghost var t := Now();
      ghost var done;
      var ok;
      ok, done := Mappages(i, TRAMPOLINE, 1, trampoline, Pte(0, true, true, false, true, false));
      ghost var u := Now();
      OthersFromChanges(t, u, i, TRAMPOLINE, TRAMPOLINE + 1);
      OthersThrough(s, t, u, i);
      forall v: nat | v != TRAMPOLINE ensures !Lookup(u, i, v).v { assert !Lookup(t, i, v).v && Stays(t, u, i, TRAMPOLINE, TRAMPOLINE + 1, Leaf(i, v)); }
      if !ok {
        Abandon(s, i);
        return 0;
      }
      i := AddTrapframe(s, i, trapframe);
    }

    /** The second half of proc_pagetable. */
    method AddTrapframe(ghost s: Mem, i: nat, trapframe: nat) returns (j: nat)
      requires Owned(s) && i != 0 && i !in s.roots && Valid() && Others(s, Now(), i) && roots == s.roots + {i} && |s.free| <= |free| + 3
      requires Lookup(Now(), i, TRAMPOLINE) == TrampolineEntry(trampoline) && forall v: nat {:trigger Lookup(Now(), i, v)} :: v != TRAMPOLINE ==> !Lookup(Now(), i, v).v
      modifies this`free, this`ptes, this`data, this`held, this`roots, this`owner
      ensures Valid()
      ensures j == 0 ==> Intact(s, Now()) && |free| == |s.free| && |s.free| <= 4
      ensures j != 0 ==> j == i && roots == s.roots + {i} && Others(s, Now(), i) && Tidy(Now(), i, 0, trampoline)
      ensures |free| + 5 >= |s.free|
      ensures j != 0 ==> Lookup(Now(), i, TRAPFRAME) == TrapframeEntry(trapframe)
    {
      ghost var u := Now();
      var ok; ghost var done;
      ok, done := Mappages(i, TRAPFRAME, 1, trapframe, Pte(0, true, true, true, false, false));
      ghost var w := Now();
      OthersFromChanges(u, w, i, TRAPFRAME, TRAPFRAME + 1);
      OthersThrough(s, u, w, i);
      forall v: nat | v != TRAPFRAME ensures Lookup(w, i, v) == Lookup(u, i, v) { assert Stays(u, w, i, TRAPFRAME, TRAPFRAME + 1, Leaf(i, v)); }
      if !ok {
        Uvmunmap(i, TRAMPOLINE, 1, false);
        ghost var x := Now();
        OthersFromChanges(w, x, i, TRAMPOLINE, TRAMPOLINE + 1);
        OthersThrough(s, w, x, i);
        forall v: nat | v != TRAMPOLINE ensures !Lookup(x, i, v).v { assert !Lookup(w, i, v).v && Stays(w, x, i, TRAMPOLINE, TRAMPOLINE + 1, Leaf(i, v)); }
        Abandon(s, i);
        return 0;
      }
      j := i;
    }

    /** uvmfree on an address space that was only just made. */
    method Abandon(ghost s: Mem, i: nat)
      requires Owned(s) && i !in s.roots && Valid() && Others(s, Now(), i) && roots == s.roots + {i}
      requires forall v: nat {:trigger Lookup(Now(), i, v)} :: !Lookup(Now(), i, v).v
      modifies this`free, this`ptes, this`data, this`held, this`roots, this`owner
      ensures Valid() && Intact(s, Now()) && |free| == |s.free|
    {
      ghost var u := Now();
      Uvmfree(i, 0);
      OthersThrough(s, u, Now(), i);
      IntactFromOthers(s, Now(), i);
      IntactLosesNothing(s, Now());
    }

    /** proc_freepagetable: every page of the address space is free again. */
    method ProcFreepagetable(i: nat, sz: nat)
      requires Valid() && Tidy(Now(), i, sz, trampoline)
      modifies this`free, this`ptes, this`data, this`held, this`roots, this`owner
      ensures Valid() && roots == old(roots) - {i} && Others(old(Now()), Now(), i)
      ensures forall p: nat {:trigger p in free} :: p in old(owner) && old(owner)[p].i == i ==> p in free
    {
      ghost var s := Now();
      Uvmunmap(i, TRAMPOLINE, 1, false);
      ghost var t := Now();
      OthersFromChanges(s, t, i, TRAMPOLINE, TRAMPOLINE + 1);
      forall v: nat ensures Lookup(t, i, v).v ==> v < Pages(sz) || v == TRAPFRAME {
        assert Stays(s, t, i, TRAMPOLINE, TRAMPOLINE + 1, Leaf(i, v)) && (v == TRAMPOLINE || Lookup(t, i, v) == Lookup(s, i, v));
      }
      Uvmunmap(i, TRAPFRAME, 1, false);
      ghost var u := Now();
      OthersFromChanges(t, u, i, TRAPFRAME, TRAPFRAME + 1);
      OthersThrough(s, t, u, i);
      forall v: nat ensures Lookup(u, i, v).v ==> v < Pages(sz) {
        assert Stays(t, u, i, TRAPFRAME, TRAPFRAME + 1, Leaf(i, v)) && (v == TRAPFRAME || Lookup(u, i, v) == Lookup(t, i, v));
      }
      Uvmfree(i, sz);
      OthersThrough(s, u, Now(), i);
      AllReturned(s, Now(), i);
    }

    /** growproc: the process grows by n bytes, or shrinks; -1, and nothing has changed, if memory runs out.
        Sizes are 64 bits wide: shrinking below 0 wraps around, and then nothing happens. */
    method Growproc(i: nat, sz: nat, n: int) returns (ret: int, newsz: nat)
      requires Valid() && Tidy(Now(), i, sz, trampoline) && -0x8000_0000 <= n < 0x8000_0000
      requires n > 0 ==> Pages(sz + n) <= TRAPFRAME
      modifies this`free, this`ptes, this`data, this`held, this`owner
      ensures Valid() && held == old(held) && Tidy(Now(), i, newsz, trampoline)
      ensures ret == 0 || ret == -1
      ensures ret == -1 ==> n > 0 && newsz == sz && Changes(old(Now()), Now(), i, 0, 0) && |old(free)| < 3 * (Pages(sz + n) - Pages(sz))
      ensures ret == 0 ==> newsz == (if sz + n < 0 then sz else sz + n)
      ensures ret == 0 ==> Changes(old(Now()), Now(), i, if n > 0 then Pages(sz) else Pages(newsz), if n > 0 then Pages(newsz) else Pages(sz))
      ensures ret == 0 && n > 0 ==> AllFresh(Now(), i, Pages(sz), Pages(newsz), Pte(0, true, true, true, false, true))
    {
      ghost var s := Now();
      NothingChanges(s, i, Pages(sz));
      ret, newsz := 0, sz;
      if n > 0 {
        newsz := Uvmalloc(i, sz, sz + n, Pte(0, true, false, true, false, false));
        if newsz == 0 {
          TidyStays(s, Now(), i, sz, 0, 0, sz, trampoline);
          return -1, sz;
        }
        TidyStays(s, Now(), i, sz, Pages(sz), Pages(newsz), newsz, trampoline);
      } else if n < 0 {
        newsz := Uvmdealloc(i, sz, (sz + n) % 0x1_0000_0000_0000_0000);
        if newsz != sz { TidyShrinks(s, Now(), i, sz, newsz, trampoline); }
      }
    }

    /** What kfork does to memory, with allocproc and freeproc: a child with a trapframe of its own and a
        copy of all the parent has; or memory has run out and everything is as it was. */
    method Fork(i: nat, sz: nat) returns (j: nat, trapframe: nat)
      requires Valid() && Tidy(Now(), i, sz, trampoline)
      modifies this`free, this`ptes, this`data, this`held, this`roots, this`owner
      ensures Valid()
      ensures j == 0 ==> Intact(old(Now()), Now()) && |free| == |old(free)| && |old(free)| <= 5 + 3 * Pages(sz)
      ensures j != 0 ==> j !in old(roots) && roots == old(roots) + {j} && Tidy(Now(), j, sz, trampoline)
      ensures j != 0 ==> trapframe !in old(held) && held == old(held) + {trapframe} && Lookup(Now(), j, TRAPFRAME) == TrapframeEntry(trapframe)
      ensures j != 0 ==> AllCopied(old(Now()), Now(), i, j, Pages(sz)) && AllKept(old(Now()), Now(), j)
    {
      ghost var s := Now();
      trapframe := Kalloc();
      if trapframe == 0 {
        IntactItself(s);
        return 0, 0;
      }
      ghost var t := Now();
      FreeIsNoRoot(s, trapframe);
      j := ProcPagetable(trapframe);
      if j == 0 {
        ghost var u := Now();
        OthersFromIntact(t, u, trapframe);
        assert GoodPage(u, trapframe);
        GiveBack(trapframe);
        TakenBack(s, t, u, Now(), trapframe, trapframe);
        IntactFromOthers(s, Now(), trapframe);
        IntactLosesNothing(s, Now());
        return 0, 0;
      }
      var ok := CopyAll(s, t, i, j, sz, trapframe);
      if !ok {
        return 0, 0;
      }
    }

    /** The rest of kfork. */
    method CopyAll(ghost s: Mem, ghost t: Mem, i: nat, j: nat, sz: nat, trapframe: nat) returns (ok: bool)
      requires Owned(s) && Fetched(s, t, trapframe, JunkTable(5), JunkPage(5)) && (forall r :: Slot(t, r) == Slot(s, r))
      requires trapframe !in s.held && Tidy(s, i, sz, trampoline) && j !in s.roots
      requires Valid() && roots == s.roots + {j} && Others(t, Now(), j) && Tidy(Now(), j, 0, trampoline)
      modifies this`free, this`ptes, this`data, this`held, this`roots, this`owner
      ensures Valid()
      ensures !ok ==> Intact(s, Now()) && |free| == |s.free| && |old(free)| < 3 * Pages(sz)
      ensures ok ==> roots == s.roots + {j} && Tidy(Now(), j, sz, trampoline) && held == s.held + {trapframe}
      ensures ok ==> Lookup(Now(), j, TRAPFRAME) == Lookup(old(Now()), j, TRAPFRAME)
      ensures ok ==> AllCopied(s, Now(), i, j, Pages(sz)) && AllKept(s, Now(), j)
    {
      ghost var u := Now();
      ok := Uvmcopy(i, j, sz);
      ghost var v := Now();
      if ok {
        TidyStays(u, v, j, 0, 0, Pages(sz), sz, trampoline);
        assert Stays(u, v, j, 0, Pages(sz), Leaf(j, TRAPFRAME));
        Forked(s, t, u, v, i, j, sz, trapframe);
        return;
      }
      OthersFromChanges(u, v, j, 0, 0);
      OthersThrough(t, u, v, j);
      TidyStays(u, v, j, 0, 0, 0, 0, trampoline);
      assert GoodPage(v, trapframe);
      GiveBack(trapframe);
      ghost var w := Now();
      TakenBack(s, t, v, w, trapframe, j);
      forall x: nat ensures Lookup(w, j, x) == Lookup(v, j, x) { }
      ProcFreepagetable(j, 0);
      OthersThrough(s, w, Now(), j);
      IntactFromOthers(s, Now(), j);
      IntactLosesNothing(s, Now());
    }
  }
}
