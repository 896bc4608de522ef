/** Page tables: which physical page belongs to which place, and what an address space maps.
    (projects/07-xv6plus/kernel/vm.c, kernel/kalloc.c; RISC-V Privileged Architecture, section 4.4, Sv39) */
module PageTables {

  // Pages are known by number: an address divided by 4096. A page table has 512 entries; three levels of
  // them, 2 to 0, make a tree. The root of the tree counts as level 3.

  const TRAMPOLINE := 67108863  // the last page below MAXVA
  const TRAPFRAME := 67108862   // the page below; processes are smaller than this

  type Byte = x: int | 0 <= x < 256

  /** A page-table entry: the page it points to, V, R, W, X and U. */
  datatype Pte = Pte(ppn: nat, v: bool, r: bool, w: bool, x: bool, u: bool)

  const ZERO := Pte(0, false, false, false, false, false)

  function TableEntry(p: nat): Pte {
    Pte(p, true, false, false, false, false)
  }

  /** An entry without R, W and X points to a page table. */
  predicate IsLeaf(e: Pte) {
    e.r || e.w || e.x
  }

  function ZeroTable(): (t: seq<Pte>)
    ensures |t| == 512 && forall k :: 0 <= k < 512 ==> t[k] == ZERO
  {
    seq(512, _ => ZERO)
  }

  function ZeroPage(): (c: seq<Byte>)
    ensures |c| == 4096 && forall x :: 0 <= x < 4096 ==> c[x] == 0
  {
    seq(4096, _ => 0)
  }

  /** kalloc and kfree fill a page with the byte 5 or 1: this is what that is as entries and as bytes. */
  function JunkTable(fill: Byte): (t: seq<Pte>)
    ensures |t| == 512
  {
    seq(512, _ => Pte(fill, fill % 2 == 1, fill / 2 % 2 == 1, fill / 4 % 2 == 1, fill / 8 % 2 == 1, fill / 16 % 2 == 1))
  }

  function JunkPage(fill: Byte): (c: seq<Byte>)
    ensures |c| == 4096
  {
    seq(4096, _ => fill)
  }

  /** A place in the tree of root i: the root itself at level 3, an entry of a page table below. `n` is
      the virtual page number, divided by 512 once for each level above 0. */
  datatype Ref = Ref(i: nat, level: nat, n: nat)

  function Up(r: Ref): Ref {
    Ref(r.i, r.level + 1, r.n / 512)
  }

  function Child(r: Ref, k: nat): Ref
    requires r.level > 0
  {
    Ref(r.i, r.level - 1, r.n * 512 + k)
  }

  function Leaf(i: nat, v: nat): Ref {
    Ref(i, 0, v)
  }

  /** Physical memory from page `lo` to page `hi - 1`. `free` is the free list, `held` the pages that
      kalloc has given to somebody who has not put them in a page table. `ptes` and `data` are the two
      ways to look at a page. */
  datatype Mem = Mem(lo: nat, hi: nat, free: seq<nat>, ptes: seq<seq<Pte>>, data: seq<seq<Byte>>, roots: set<nat>, held: set<nat>, owner: map<nat, Ref>)

  function Entry(s: Mem, p: nat, k: nat): Pte {
    if p < |s.ptes| && k < |s.ptes[p]| then s.ptes[p][k] else ZERO
  }

  /** The entry at a place; for a root, one that points to it. */
  function Slot(s: Mem, r: Ref): Pte
    decreases 3 - r.level
  {
    if r.level >= 3 then if r.level == 3 && r.n == 0 && r.i in s.roots then TableEntry(r.i) else ZERO
    else if Slot(s, Up(r)).v then Entry(s, Slot(s, Up(r)).ppn, r.n % 512)
    else ZERO
  }

  /** The trampoline and the trapframe are mapped but do not belong to the page table. */
  predicate Owning(r: Ref) {
    r.level > 0 || r.n < TRAPFRAME
  }

  predicate Ram(s: Mem, p: nat) {
    s.lo <= p < s.hi
  }

  predicate Shaped(s: Mem) {
    && 0 < s.lo <= s.hi && |s.ptes| == |s.data| == s.hi
    && (forall p :: s.lo <= p < s.hi ==> |s.ptes[p]| == 512 && |s.data[p]| == 4096)
    && (forall a, b :: 0 <= a < b < |s.free| ==> s.free[a] != s.free[b])
  }

  /** What a place refers to is a page of the right kind that nothing else refers to. */
  predicate GoodRef(s: Mem, r: Ref) {
    var e := Slot(s, r);
    if e.v then
      && (IsLeaf(e) <==> r.level == 0)
      && (Owning(r) ==> Ram(s, e.ppn) && e.ppn in s.owner && s.owner[e.ppn] == r)
    else e == ZERO
  }

  /** A page is free, or held, or in a page table, and only one of them. */
  predicate GoodPage(s: Mem, p: nat) {
    && (p in s.free || p in s.held || p in s.owner <==> Ram(s, p))
    && !(p in s.free && p in s.held) && !(p in s.free && p in s.owner) && !(p in s.held && p in s.owner)
    && (p in s.owner ==> Owning(s.owner[p]) && Slot(s, s.owner[p]).v && Slot(s, s.owner[p]).ppn == p)
  }

  ghost predicate Owned(s: Mem) {
    && Shaped(s)
    && (forall r {:trigger GoodRef(s, r)} :: GoodRef(s, r))
    && (forall p: nat {:trigger GoodPage(s, p)} :: GoodPage(s, p))
  }

  // ----- address spaces -----

  /** What virtual page v of address space i is mapped to. */
  function Lookup(s: Mem, i: nat, v: nat): Pte {
    Slot(s, Leaf(i, v))
  }

  function Page(s: Mem, p: nat): seq<Byte> {
    if p < |s.data| then s.data[p] else []
  }

  /** The bytes of a virtual page. */
  function Bytes(s: Mem, i: nat, v: nat): seq<Byte> {
    Page(s, Lookup(s, i, v).ppn)
  }

  /** No page serves two virtual pages. */
  lemma PagesAreDistinct(s: Mem, i: nat, v: nat, j: nat, w: nat)
    requires Owned(s) && v < TRAPFRAME && w < TRAPFRAME
    requires Lookup(s, i, v).v && Lookup(s, j, w).v && Lookup(s, i, v).ppn == Lookup(s, j, w).ppn
    ensures i == j && v == w
  {
    assert GoodRef(s, Leaf(i, v)) && GoodRef(s, Leaf(j, w));
  }

  // ----- steps -----

  /** Page p gets new contents. */
  function Filled(s: Mem, p: nat, t: seq<Pte>, c: seq<Byte>): Mem
    requires p < |s.ptes| && p < |s.data|
  {
    s.(ptes := s.ptes[p := t], data := s.data[p := c])
  }

  /** A page that is in no page table can be filled with anything. */
  lemma {:induction false} FilledSlot(s: Mem, p: nat, t: seq<Pte>, c: seq<Byte>, r: Ref)
    requires Owned(s) && p < |s.ptes| && p !in s.owner
    ensures Slot(Filled(s, p, t, c), r) == Slot(s, r)
    decreases 3 - r.level
  {
    if r.level < 3 {
      FilledSlot(s, p, t, c, Up(r));
      assert GoodRef(s, Up(r));
    }
  }

  lemma FilledIsOwned(s: Mem, p: nat, t: seq<Pte>, c: seq<Byte>)
    requires Owned(s) && p < |s.ptes| && p !in s.owner && |t| == 512 && |c| == 4096
    ensures Owned(Filled(s, p, t, c)) && forall r :: Slot(Filled(s, p, t, c), r) == Slot(s, r)
  {
    var u := Filled(s, p, t, c);
    forall r ensures Slot(u, r) == Slot(s, r) { FilledSlot(s, p, t, c, r); }
    forall r ensures GoodRef(u, r) { assert GoodRef(s, r); }
    forall q: nat ensures GoodPage(u, q) { assert GoodPage(s, q); }
  }

  /** kalloc takes the first page of the free list. */
  function Taken(s: Mem): Mem
    requires s.free != []
  {
    s.(free := s.free[1..], held := s.held + {s.free[0]})
  }

  lemma {:induction false} SameSlots(s: Mem, t: Mem, r: Ref)
    requires s.ptes == t.ptes && s.roots == t.roots
    ensures Slot(t, r) == Slot(s, r)
    decreases 3 - r.level
  {
    if r.level < 3 { SameSlots(s, t, Up(r)); }
  }

  lemma TakenIsOwned(s: Mem)
    requires Owned(s) && s.free != []
    ensures Owned(Taken(s)) && forall r :: Slot(Taken(s), r) == Slot(s, r)
  {
    var t := Taken(s);
    forall r ensures Slot(t, r) == Slot(s, r) { SameSlots(s, t, r); }
    forall r ensures GoodRef(t, r) { assert GoodRef(s, r); }
    assert s.free == [s.free[0]] + t.free;
    forall q: nat ensures GoodPage(t, q) { assert GoodPage(s, q); }
  }

  /** kfree puts a page in front of it. */
  function Returned(s: Mem, p: nat): Mem {
    s.(free := [p] + s.free, held := s.held - {p})
  }

  lemma ReturnedIsOwned(s: Mem, p: nat)
    requires Owned(s) && p in s.held
    ensures Owned(Returned(s, p)) && forall r :: Slot(Returned(s, p), r) == Slot(s, r)
  {
    var t := Returned(s, p);
    assert GoodPage(s, p);
    forall r ensures Slot(t, r) == Slot(s, r) { SameSlots(s, t, r); }
    forall r ensures GoodRef(t, r) { assert GoodRef(s, r); }
    forall q: nat ensures GoodPage(t, q) { assert GoodPage(s, q); }
  }

  /** The entry at a place below a page table is set; the page it points to, if it belongs to the
      table, is no longer merely held. */
  function Hung(s: Mem, r: Ref, e: Pte): Mem
    requires r.level < 3 && Slot(s, Up(r)).ppn < |s.ptes| && |s.ptes[Slot(s, Up(r)).ppn]| == 512
  {
    var p := Slot(s, Up(r)).ppn;
    var t := s.(ptes := s.ptes[p := s.ptes[p][r.n % 512 := e]]);
    if Owning(r) then t.(held := s.held - {e.ppn}, owner := s.owner[e.ppn := r]) else t
  }

  /** An entry that can be hung at r: a held page of zeros to be a page table, or a leaf. */
  predicate CanHang(s: Mem, r: Ref, e: Pte) {
    && r.level < 3 && Slot(s, Up(r)).v && !Slot(s, r).v && e.v
    && (Owning(r) ==> e.ppn in s.held)
    && (IsLeaf(e) <==> r.level == 0)
    && (r.level > 0 ==> e.ppn < |s.ptes| && s.ptes[e.ppn] == ZeroTable())
  }

  lemma ParentIsTable(s: Mem, r: Ref)
    requires Owned(s) && r.level < 3 && Slot(s, Up(r)).v
    ensures var p := Slot(s, Up(r)).ppn; Ram(s, p) && p < |s.ptes| && |s.ptes[p]| == 512 && p in s.owner && s.owner[p] == Up(r)
  {
    assert GoodRef(s, Up(r));
  }

  lemma {:induction false} HungSlot(s: Mem, r: Ref, e: Pte, q: Ref)
    requires Owned(s) && CanHang(s, r, e)
    requires Slot(s, Up(r)).ppn < |s.ptes| && |s.ptes[Slot(s, Up(r)).ppn]| == 512
    ensures Slot(Hung(s, r, e), q) == if q == r then e else Slot(s, q)
    decreases 3 - q.level
  {
    if q.level < 3 {
      HungSlot(s, r, e, Up(q));
      assert GoodRef(s, Up(q)) && GoodRef(s, Up(r));
      if Owning(r) { assert GoodPage(s, e.ppn); }
      if Up(q) == r { assert GoodRef(s, r); }
      if Slot(s, Up(q)).v && Slot(s, Up(q)).ppn == Slot(s, Up(r)).ppn {
        assert Up(q) == Up(r);
        SameRef(q, r);
      }
    }
  }

  lemma SameRef(q: Ref, r: Ref)
    requires Up(q) == Up(r)
    ensures q.n % 512 == r.n % 512 <==> q == r
  {
  }

  lemma HungIsOwned(s: Mem, r: Ref, e: Pte)
    requires Owned(s) && CanHang(s, r, e)
    ensures Slot(s, Up(r)).ppn < |s.ptes| && |s.ptes[Slot(s, Up(r)).ppn]| == 512
    ensures Owned(Hung(s, r, e)) && forall q :: Slot(Hung(s, r, e), q) == if q == r then e else Slot(s, q)
  {
    ParentIsTable(s, r);
    var t := Hung(s, r, e);
    forall q ensures Slot(t, q) == if q == r then e else Slot(s, q) { HungSlot(s, r, e, q); }
    if Owning(r) { assert GoodPage(s, e.ppn); }
    forall q ensures GoodRef(t, q) { assert GoodRef(s, q); }
    forall p: nat ensures GoodPage(t, p) { assert GoodPage(s, p); }
  }

  /** The entry at a place is cleared, or a root given up; the page it pointed to is held. */
  function Cut(s: Mem, r: Ref): Mem
    requires r.level < 3 ==> Slot(s, Up(r)).ppn < |s.ptes| && |s.ptes[Slot(s, Up(r)).ppn]| == 512
  {
    var p := Slot(s, r).ppn;
    var t := if r.level < 3 then s.(ptes := s.ptes[Slot(s, Up(r)).ppn := s.ptes[Slot(s, Up(r)).ppn][r.n % 512 := ZERO]])
             else s.(roots := s.roots - {r.i});
    if Owning(r) then t.(held := s.held + {p}, owner := s.owner - {p}) else t
  }

  /** What can be cut: a leaf, or a page table without entries. */
  predicate CanCut(s: Mem, r: Ref) {
    && Slot(s, r).v && (r.level > 0 ==> Slot(s, r).ppn < |s.ptes| && s.ptes[Slot(s, r).ppn] == ZeroTable())
  }

  lemma {:induction false} CutSlot(s: Mem, r: Ref, q: Ref)
    requires Owned(s) && CanCut(s, r)
    requires r.level < 3 ==> Slot(s, Up(r)).ppn < |s.ptes| && |s.ptes[Slot(s, Up(r)).ppn]| == 512
    ensures Slot(Cut(s, r), q) == if q == r then ZERO else Slot(s, q)
    decreases 3 - q.level
  {
    if q.level < 3 {
      CutSlot(s, r, Up(q));
      assert GoodRef(s, Up(q)) && GoodRef(s, Up(r));
      if r.level < 3 && Slot(s, Up(q)).v && Slot(s, Up(q)).ppn == Slot(s, Up(r)).ppn {
        assert Slot(s, Up(r)).v;
        assert Up(q) == Up(r);
        SameRef(q, r);
      }
    }
  }

  lemma CutIsOwned(s: Mem, r: Ref)
    requires Owned(s) && CanCut(s, r)
    ensures r.level < 3 ==> Slot(s, Up(r)).ppn < |s.ptes| && |s.ptes[Slot(s, Up(r)).ppn]| == 512
    ensures Owned(Cut(s, r)) && forall q :: Slot(Cut(s, r), q) == if q == r then ZERO else Slot(s, q)
  {
    if r.level < 3 { ParentIsTable(s, r); }
    var t := Cut(s, r);
    forall q ensures Slot(t, q) == if q == r then ZERO else Slot(s, q) { CutSlot(s, r, q); }
    assert GoodRef(s, r);
    forall q ensures GoodRef(t, q) { assert GoodRef(s, q); }
    forall p: nat ensures GoodPage(t, p) { assert GoodPage(s, p); }
  }

  /** The page a place refers to is freed, and the entry cleared. */
  function Dropped(s: Mem, r: Ref): Mem
    requires r.level < 3 ==> Slot(s, Up(r)).ppn < |s.ptes| && |s.ptes[Slot(s, Up(r)).ppn]| == 512
    requires Slot(s, r).ppn < |s.ptes| && Slot(s, r).ppn < |s.data|
  {
    var p := Slot(s, r).ppn;
    Returned(Filled(Cut(s, r), p, JunkTable(1), JunkPage(1)), p)
  }

  lemma DroppedIsOwned(s: Mem, r: Ref)
    requires Owned(s) && CanCut(s, r) && Owning(r)
    ensures r.level < 3 ==> Slot(s, Up(r)).ppn < |s.ptes| && |s.ptes[Slot(s, Up(r)).ppn]| == 512
    ensures Slot(s, r).ppn < |s.ptes| && Slot(s, r).ppn < |s.data|
    ensures Owned(Dropped(s, r)) && forall q :: Slot(Dropped(s, r), q) == if q == r then ZERO else Slot(s, q)
    ensures Dropped(s, r).held == s.held
  {
    CutIsOwned(s, r);
    assert GoodRef(s, r);
    var t, p := Cut(s, r), Slot(s, r).ppn;
    assert GoodPage(s, p) && GoodPage(t, p);
    FilledIsOwned(t, p, JunkTable(1), JunkPage(1));
    ReturnedIsOwned(Filled(t, p, JunkTable(1), JunkPage(1)), p);
  }

  /** A new root: a held page of zeros. */
  function Rooted(s: Mem, p: nat): Mem {
    s.(roots := s.roots + {p}, held := s.held - {p}, owner := s.owner[p := Ref(p, 3, 0)])
  }

  lemma {:induction false} RootedSlot(s: Mem, p: nat, q: Ref)
    requires Owned(s) && p in s.held && p < |s.ptes| && s.ptes[p] == ZeroTable()
    ensures Slot(Rooted(s, p), q) == if q == Ref(p, 3, 0) then TableEntry(p) else Slot(s, q)
    decreases 3 - q.level
  {
    assert GoodPage(s, p);
    if q.level < 3 {
      RootedSlot(s, p, Up(q));
      assert GoodRef(s, Ref(p, 3, 0));
    }
  }

  lemma RootedIsOwned(s: Mem, p: nat)
    requires Owned(s) && p in s.held && p < |s.ptes| && s.ptes[p] == ZeroTable()
    ensures Owned(Rooted(s, p)) && forall q :: Slot(Rooted(s, p), q) == if q == Ref(p, 3, 0) then TableEntry(p) else Slot(s, q)
  {
    var t := Rooted(s, p);
    assert GoodPage(s, p);
    forall q ensures Slot(t, q) == if q == Ref(p, 3, 0) then TableEntry(p) else Slot(s, q) { RootedSlot(s, p, q); }
    forall q ensures GoodRef(t, q) { assert GoodRef(s, q); }
    forall c: nat ensures GoodPage(t, c) { assert GoodPage(s, c); }
  }

  // ----- whole trees -----

  /** The ancestor of a place at level l. */
  function Ancestor(q: Ref, l: nat): Ref
    decreases if q.level < l then l - q.level else 0
  {
    if q.level >= l then q else Ancestor(Up(q), l)
  }

  predicate Under(q: Ref, r: Ref) {
    q.level <= r.level && Ancestor(q, r.level) == r
  }

  /** Under one of the first k entries of the page table at r. */
  predicate Below(q: Ref, r: Ref, k: nat) {
    && 0 < r.level && q.level < r.level
    && Up(Ancestor(q, r.level - 1)) == r && Ancestor(q, r.level - 1).n % 512 < k
  }

  lemma {:induction false} AncestorThrough(q: Ref, l: nat)
    requires q.level <= l
    ensures Ancestor(q, l + 1) == Up(Ancestor(q, l)) && Ancestor(q, l).level == l && Ancestor(q, l).i == q.i
    decreases l - q.level
  {
    if q.level < l { AncestorThrough(Up(q), l); }
  }

  lemma ChildOf(q: Ref, r: Ref, k: nat)
    requires 0 < r.level && q.level == r.level - 1 && k < 512
    ensures Up(Child(r, k)) == r && Child(r, k).n % 512 == k
    ensures q == Child(r, k) <==> Up(q) == r && q.n % 512 == k
  {
  }

  /** Below grows entry by entry, and all entries are everything under r but r. */
  lemma BelowMore(q: Ref, r: Ref, k: nat)
    requires 0 < r.level && k < 512
    ensures Below(q, r, k + 1) <==> Below(q, r, k) || Under(q, Child(r, k))
    ensures Under(q, r) <==> Below(q, r, 512) || q == r
  {
    if q.level < r.level {
      AncestorThrough(q, r.level - 1);
      ChildOf(Ancestor(q, r.level - 1), r, k);
    }
  }

  /** What is under a root that is not one is nothing. */
  lemma {:induction false} NoRoot(s: Mem, r: Ref)
    requires r.i !in s.roots
    ensures Slot(s, r) == ZERO
    decreases 3 - r.level
  {
    if r.level < 3 { NoRoot(s, Up(r)); }
  }

  /** Everything valid is under its root. */
  lemma {:induction false} UnderRoot(s: Mem, r: Ref)
    requires Slot(s, r).v
    ensures Under(r, Ref(r.i, 3, 0)) && r.i in s.roots
    decreases 3 - r.level
  {
    if r.level < 3 { UnderRoot(s, Up(r)); AncestorThrough(r, 2); AncestorThrough(Up(r), 3); }
  }

  // ----- conservation -----

  /** Where the same places refer to the same pages and the same pages are held, the same pages are free. */
  lemma NothingLost(s: Mem, t: Mem)
    requires Owned(s) && Owned(t) && t.lo == s.lo && t.hi == s.hi && t.held == s.held
    requires forall r {:trigger Slot(t, r)} :: Slot(t, r) == Slot(s, r)
    ensures t.owner == s.owner && Elements(t.free) == Elements(s.free) && |t.free| == |s.free|
  {
    forall p: nat ensures p in t.owner <==> p in s.owner
      ensures p in s.owner ==> t.owner[p] == s.owner[p]
    {
      assert GoodPage(s, p) && GoodPage(t, p);
      if p in s.owner { assert GoodRef(t, s.owner[p]); }
      if p in t.owner { assert GoodRef(s, t.owner[p]); }
    }
    forall p: nat ensures p in t.free <==> p in s.free { assert GoodPage(s, p) && GoodPage(t, p); }
    FreeCount(s.free);
    FreeCount(t.free);
  }

  function Elements(f: seq<nat>): set<nat> {
    set p | p in f
  }

  function Range(lo: nat, hi: nat): (r: set<nat>)
    ensures forall p: nat :: p in r <==> lo <= p < hi
    decreases hi
  {
    if lo < hi then Range(lo, hi - 1) + {hi - 1} else {}
  }

  /** The free pages, the held pages and those in page tables add up to all of memory. */
  lemma PagesAddUp(s: Mem)
    requires Owned(s)
    ensures |s.free| + |s.held| + |s.owner.Keys| == s.hi - s.lo
  {
    FreeCount(s.free);
    RangeCount(s.lo, s.hi);
    forall p: nat ensures p in s.free || p in s.held || p in s.owner <==> p in Range(s.lo, s.hi) { assert GoodPage(s, p); }
    forall p: nat ensures !(p in s.free && p in s.held) && !(p in s.free && p in s.owner) && !(p in s.held && p in s.owner) { assert GoodPage(s, p); }
    Disjoint(Elements(s.free), s.held, s.owner.Keys, Range(s.lo, s.hi));
  }

  lemma Disjoint(a: set<nat>, b: set<nat>, c: set<nat>, all: set<nat>)
    requires a !! b && a !! c && b !! c && forall p: nat :: p in a || p in b || p in c <==> p in all
    ensures |a| + |b| + |c| == |all|
  {
    assert all == a + b + c;
  }

  lemma {:induction false} FreeCount(free: seq<nat>)
    requires forall a, b :: 0 <= a < b < |free| ==> free[a] != free[b]
    ensures |Elements(free)| == |free|
  {
    if free != [] {
      FreeCount(free[1..]);
      assert free == [free[0]] + free[1..];
      assert Elements(free) == Elements(free[1..]) + {free[0]};
    }
  }

  lemma {:induction false} RangeCount(lo: nat, hi: nat)
    requires lo <= hi
    ensures |Range(lo, hi)| == hi - lo
    decreases hi
  {
    if lo < hi {
      RangeCount(lo, hi - 1);
    }
  }
}
