/** What the operations on page tables may change, and how changes add up. (projects/07-xv6plus/kernel/vm.c) */
module MemoryChanges {
  import opened PageTables

  // ----- what an operation may change -----

  /** Place r is as it was; so are the bytes of the page, if it is one of a process. */
  predicate Kept(s: Mem, t: Mem, r: Ref) {
    && Slot(t, r) == Slot(s, r)
    && (r.level == 0 && Owning(r) && Slot(s, r).v ==> Page(t, Slot(s, r).ppn) == Page(s, Slot(s, r).ppn))
  }

  /** A virtual page outside a..b - 1 of address space i is as it was; a page table stays in its place. */
  predicate Stays(s: Mem, t: Mem, i: nat, a: nat, b: nat, r: Ref) {
    if r.level == 0 then (r.i == i && a <= r.n < b) || Kept(s, t, r)
    else (r.i == i && !Slot(s, r).v) || Slot(t, r) == Slot(s, r)
  }

  /** Only the virtual pages a..b - 1 of address space i may have changed; page tables may have been
      added. Held pages are as they were. */
  ghost predicate Changes(s: Mem, t: Mem, i: nat, a: nat, b: nat) {
    && t.lo == s.lo && t.hi == s.hi && t.roots == s.roots && t.held <= s.held
    && (forall r {:trigger Stays(s, t, i, a, b, r)} :: Stays(s, t, i, a, b, r))
    && (forall p: nat {:trigger Page(t, p)} :: p in t.held ==> Page(t, p) == Page(s, p))
  }

  lemma ChangesThrough(s: Mem, t: Mem, u: Mem, i: nat, a: nat, b: nat)
    requires Changes(s, t, i, a, b) && Changes(t, u, i, a, b)
    ensures Changes(s, u, i, a, b)
  {
    forall r ensures Stays(s, u, i, a, b, r) { assert Stays(s, t, i, a, b, r) && Stays(t, u, i, a, b, r); }
    forall p: nat | p in u.held ensures Page(u, p) == Page(s, p) { assert Page(u, p) == Page(t, p); }
  }

  lemma ChangesMore(s: Mem, t: Mem, i: nat, a: nat, b: nat, c: nat, d: nat)
    requires Changes(s, t, i, a, b) && ((c <= a && b <= d) || b <= a)
    ensures Changes(s, t, i, c, d)
  {
    forall r ensures Stays(s, t, i, c, d, r) { assert Stays(s, t, i, a, b, r); }
  }

  lemma NothingChanges(s: Mem, i: nat, a: nat)
    ensures Changes(s, s, i, a, a)
  {
    forall r ensures Stays(s, s, i, a, a, r) { }
  }

  /** u is s after kalloc has given page p, and p has been filled with c. */
  predicate Fetched(s: Mem, u: Mem, p: nat, t: seq<Pte>, c: seq<Byte>) {
    && s.free != [] && p == s.free[0] && p < |s.ptes| == |s.data|
    && u == Filled(Taken(s), p, t, c)
  }

  /** The level of the virtual page number: v divided by 512 once a level. */
  function Index(v: nat, level: nat): nat {
    if level == 0 then v else Index(v, level - 1) / 512
  }

  lemma IndexOfRoot(v: nat)
    requires v <= TRAMPOLINE
    ensures Index(v, 3) == 0 && Index(v, 1) == v / 512
  {
    assert Index(v, 1) == Index(v, 0) / 512;
    assert Index(v, 2) == Index(v, 1) / 512;
  }

  /** Where a page table is missing, so are those below it. */
  lemma NoWayDown(s: Mem, i: nat, v: nat, level: nat)
    requires 0 < level < 3 && !Slot(s, Ref(i, level, Index(v, level))).v
    ensures !Slot(s, Ref(i, 1, Index(v, 1))).v
  {
  }

  /** What a turn of mappages adds. */
  lemma MappedOneMore(s: Mem, t: Mem, u: Mem, i: nat, v: nat, n: nat, p: nat, k: nat, ok: bool, perm: Pte)
    requires Owned(t) && k < n && Changes(s, t, i, v, v + n) && Changes(t, u, i, v + k, v + k + 1)
    requires v >= TRAPFRAME || v + n <= TRAPFRAME
    requires t.held == if v < TRAPFRAME then s.held - Range(p, p + k) else s.held
    requires forall w: nat {:trigger Lookup(t, i, w)} :: v <= w < v + n ==>
               Lookup(t, i, w) == if w < v + k then perm.(ppn := p + (w - v), v := true) else ZERO
    requires v < TRAPFRAME ==> forall c: nat {:trigger Page(t, c)} :: p <= c < p + n ==> Page(t, c) == Page(s, c)
    requires Lookup(u, i, v + k) == if ok then perm.(ppn := p + k, v := true) else ZERO
    requires u.held == if ok && v + k < TRAPFRAME then t.held - {p + k} else t.held
    requires v + k < TRAPFRAME ==> Page(u, p + k) == Page(t, p + k)
    requires v < TRAPFRAME ==> forall c: nat :: p <= c < p + n ==> c in s.held
    ensures Changes(s, u, i, v, v + n)
    ensures forall w: nat {:trigger Lookup(u, i, w)} :: v <= w < v + n ==>
              Lookup(u, i, w) == if w < v + k + (if ok then 1 else 0) then perm.(ppn := p + (w - v), v := true) else ZERO
    ensures u.held == if v < TRAPFRAME then s.held - Range(p, p + k + (if ok then 1 else 0)) else s.held
    ensures v < TRAPFRAME ==> forall c: nat {:trigger Page(u, c)} :: p <= c < p + n ==> Page(u, c) == Page(s, c)
  {
    ChangesMore(t, u, i, v + k, v + k + 1, v, v + n);
    ChangesThrough(s, t, u, i, v, v + n);
    forall w: nat | v <= w < v + n && w != v + k ensures Lookup(u, i, w) == Lookup(t, i, w) {
      assert Stays(t, u, i, v + k, v + k + 1, Leaf(i, w));
    }
    if v < TRAPFRAME {
      forall c: nat | p <= c < p + n ensures Page(u, c) == Page(s, c) {
        if c < p + k {
          var w := v + (c - p);
          assert Lookup(t, i, w).ppn == c && Stays(t, u, i, v + k, v + k + 1, Leaf(i, w));
        } else if c != p + k {
          assert Page(u, c) == Page(t, c);
        }
      }
    }
  }

  /** Mapped to a page of zeros of its own. */
  predicate Fresh(t: Mem, i: nat, v: nat, perm: Pte) {
    Lookup(t, i, v) == perm.(ppn := Lookup(t, i, v).ppn, v := true) && Bytes(t, i, v) == ZeroPage()
  }

  /** Taking a page and mapping it changes no more than mapping it. */
  lemma FetchedChanges(s: Mem, u: Mem, t: Mem, i: nat, a: nat, b: nat, p: nat, z: seq<Pte>, c: seq<Byte>)
    requires Owned(s) && Fetched(s, u, p, z, c) && (forall r :: Slot(u, r) == Slot(s, r))
    requires forall r {:trigger Stays(u, t, i, a, b, r)} :: Stays(u, t, i, a, b, r)
    requires t.lo == u.lo && t.hi == u.hi && t.roots == u.roots && t.held <= u.held
    requires forall q: nat {:trigger Page(t, q)} :: q in t.held ==> Page(t, q) == Page(u, q)
    ensures forall r {:trigger Stays(s, t, i, a, b, r)} :: Stays(s, t, i, a, b, r)
    ensures forall q: nat {:trigger Page(t, q)} :: q in t.held && q != p ==> Page(t, q) == Page(s, q)
  {
    assert p in s.free && GoodPage(s, p);
    forall r ensures Stays(s, t, i, a, b, r) {
      assert Stays(u, t, i, a, b, r) && GoodRef(s, r);
      if r.level == 0 && Owning(r) && Slot(s, r).v { assert Page(u, Slot(s, r).ppn) == Page(s, Slot(s, r).ppn); }
    }
  }

  /** Giving the page back after mapping it has failed. */
  lemma UndoneChanges(s: Mem, t: Mem, u: Mem, i: nat, v: nat, p: nat)
    requires Owned(s) && Owned(t) && p in t.held && p in s.free && t.lo == s.lo && t.hi == s.hi && t.roots == s.roots && t.held == s.held + {p}
    requires forall r {:trigger Stays(s, t, i, v, v + 1, r)} :: Stays(s, t, i, v, v + 1, r)
    requires forall q: nat {:trigger Page(t, q)} :: q in t.held && q != p ==> Page(t, q) == Page(s, q)
    requires !Lookup(s, i, v).v && Lookup(t, i, v) == ZERO
    requires p < |t.ptes| && p < |t.data| && u == Returned(Filled(t, p, JunkTable(1), JunkPage(1)), p)
    requires forall r :: Slot(u, r) == Slot(t, r)
    ensures Changes(s, u, i, v, v) && u.held == s.held
  {
    assert GoodPage(s, p) && GoodPage(t, p) && GoodRef(s, Leaf(i, v));
    forall r ensures Stays(s, u, i, v, v, r) {
      assert Stays(s, t, i, v, v + 1, r) && GoodRef(t, r);
      if r.level == 0 && Owning(r) && Slot(s, r).v { assert Page(u, Slot(s, r).ppn) == Page(t, Slot(s, r).ppn); }
    }
    forall q: nat | q in u.held ensures Page(u, q) == Page(s, q) { assert Page(u, q) == Page(t, q); }
  }

  /** Clearing the entry of one virtual page. */
  lemma ClearedChanges(s: Mem, t: Mem, i: nat, v: nat)
    requires Owned(s) && v <= TRAMPOLINE && Lookup(s, i, v).v
    requires Slot(s, Up(Leaf(i, v))).ppn < |s.ptes| && |s.ptes[Slot(s, Up(Leaf(i, v))).ppn]| == 512
    requires v < TRAPFRAME ==> Lookup(s, i, v).ppn < |s.ptes| && Lookup(s, i, v).ppn < |s.data|
    requires t == if v < TRAPFRAME then Dropped(s, Leaf(i, v)) else Cut(s, Leaf(i, v))
    requires forall q :: Slot(t, q) == if q == Leaf(i, v) then ZERO else Slot(s, q)
    ensures Changes(s, t, i, v, v + 1)
  {
    assert GoodRef(s, Leaf(i, v));
    var p, b := Lookup(s, i, v).ppn, v + 1;
    if v < TRAPFRAME { assert GoodPage(s, p); }
    forall r ensures Stays(s, t, i, v, b, r) { assert GoodRef(s, r); }
    forall q: nat | q in t.held ensures Page(t, q) == Page(s, q) { assert GoodPage(s, q); }
  }

  datatype Fault = PagedIn | Failed | NotCounted

  /** The number of pages that hold sz bytes. */
  function Pages(sz: nat): nat {
    (sz + 4095) / 4096
  }

  predicate AllFresh(t: Mem, i: nat, a: nat, b: nat, perm: Pte) {
    forall w: nat {:trigger Fresh(t, i, w, perm)} :: a <= w < b ==> Fresh(t, i, w, perm)
  }

  lemma StillFresh(t: Mem, u: Mem, i: nat, a: nat, v: nat, perm: Pte)
    requires AllFresh(t, i, a, v, perm) && Changes(t, u, i, v, v + 1) && Fresh(u, i, v, perm) && v < TRAPFRAME && IsLeaf(perm)
    ensures AllFresh(u, i, a, v + 1, perm)
  {
    forall w: nat | a <= w < v + 1 ensures Fresh(u, i, w, perm) {
      if w < v { assert Fresh(t, i, w, perm) && Stays(t, u, i, v, v + 1, Leaf(i, w)); }
    }
  }

  /** What a change leaves alone stays unmapped; c..d - 1 lies outside of what changes. */
  lemma StillUnmapped(t: Mem, u: Mem, i: nat, a: nat, b: nat, c: nat, d: nat)
    requires Changes(t, u, i, a, b) && b <= c
    requires forall w: nat {:trigger Lookup(t, i, w)} :: c <= w < d ==> !Lookup(t, i, w).v
    ensures forall w: nat {:trigger Lookup(u, i, w)} :: c <= w < d ==> !Lookup(u, i, w).v
  {
    forall w: nat | c <= w < d ensures !Lookup(u, i, w).v {
      assert !Lookup(t, i, w).v && Stays(t, u, i, a, b, Leaf(i, w));
    }
  }

  /** A range that was unmapped and is unmapped has not changed. */
  lemma UndoneRange(s: Mem, t: Mem, i: nat, a: nat, b: nat)
    requires Owned(s) && Owned(t) && Changes(s, t, i, a, b)
    requires forall w: nat {:trigger Lookup(s, i, w)} :: a <= w < b ==> !Lookup(s, i, w).v
    requires forall w: nat {:trigger Lookup(t, i, w)} :: a <= w < b ==> !Lookup(t, i, w).v
    ensures Changes(s, t, i, 0, 0)
  {
    forall r ensures Stays(s, t, i, 0, 0, r) {
      assert Stays(s, t, i, a, b, r) && GoodRef(s, r) && GoodRef(t, r);
      if r.level == 0 && r.i == i && a <= r.n < b {
        assert r == Leaf(i, r.n) && !Lookup(s, i, r.n).v && !Lookup(t, i, r.n).v;
      }
    }
  }

  /** Virtual page w of j is a copy of that of i. */
  predicate Copied(s: Mem, t: Mem, i: nat, j: nat, w: nat) {
    if Lookup(s, i, w).v then
      Lookup(t, j, w) == Lookup(s, i, w).(ppn := Lookup(t, j, w).ppn) && Bytes(t, j, w) == Bytes(s, i, w)
    else !Lookup(t, j, w).v
  }

  predicate AllCopied(s: Mem, t: Mem, i: nat, j: nat, n: nat) {
    forall w: nat {:trigger Copied(s, t, i, j, w)} :: w < n ==> Copied(s, t, i, j, w)
  }

  lemma StillCopied(s: Mem, t: Mem, u: Mem, i: nat, j: nat, v: nat, c: nat)
    requires i != j && v < TRAPFRAME && v <= c <= v + 1
    requires AllCopied(s, t, i, j, v) && Changes(t, u, j, v, c) && Copied(t, u, i, j, v) && Kept(s, t, Leaf(i, v))
    ensures AllCopied(s, u, i, j, v + 1)
  {
    forall w: nat | w < v + 1 ensures Copied(s, u, i, j, w) {
      if w < v { assert Copied(s, t, i, j, w) && Stays(t, u, j, v, c, Leaf(j, w)); }
    }
  }

  // ----- the rest of memory -----

  /** Place r of another address space is as it was. */
  predicate Spared(s: Mem, t: Mem, i: nat, r: Ref) {
    r.i != i ==> Stays(s, t, i, 0, 0, r)
  }

  /** Whatever became of address space i, the others and the held pages are as they were. */
  ghost predicate Others(s: Mem, t: Mem, i: nat) {
    && t.lo == s.lo && t.hi == s.hi && t.held == s.held && t.roots - {i} == s.roots - {i}
    && (forall r {:trigger Spared(s, t, i, r)} :: Spared(s, t, i, r))
    && (forall p: nat {:trigger Page(t, p)} :: p in t.held ==> Page(t, p) == Page(s, p))
  }

  lemma OthersThrough(s: Mem, t: Mem, u: Mem, i: nat)
    requires Others(s, t, i) && Others(t, u, i)
    ensures Others(s, u, i)
  {
    forall r ensures Spared(s, u, i, r) { assert Spared(s, t, i, r) && Spared(t, u, i, r); }
    forall p: nat | p in u.held ensures Page(u, p) == Page(s, p) { assert Page(u, p) == Page(t, p); }
  }

  lemma OthersFromChanges(s: Mem, t: Mem, i: nat, a: nat, b: nat)
    requires Changes(s, t, i, a, b) && t.held == s.held
    ensures Others(s, t, i)
  {
    forall r ensures Spared(s, t, i, r) { assert Stays(s, t, i, a, b, r); }
  }

  lemma OthersFromGone(s: Mem, t: Mem, i: nat)
    requires Owned(s) && Owned(t) && Gone(s, t, Ref(i, 3, 0))
    ensures Others(s, t, i)
  {
    forall r ensures Spared(s, t, i, r) {
      if r.i != i {
        if r.level <= 3 { AncestorIsSame(r, 3); }
        assert Slot(t, r) == Slot(s, r) && GoodRef(t, r);
        if r.level == 0 && Owning(r) && Slot(t, r).v {
          assert GoodPage(t, Slot(t, r).ppn);
          assert Page(t, Slot(t, r).ppn) == Page(s, Slot(t, r).ppn);
        }
      }
    }
    forall p: nat | p in t.held ensures Page(t, p) == Page(s, p) { assert GoodPage(t, p); }
  }

  lemma {:induction false} AncestorIsSame(q: Ref, l: nat)
    requires q.level <= l
    ensures Ancestor(q, l).i == q.i
  {
    AncestorThrough(q, l);
  }

  lemma NewRoot(s: Mem, u: Mem, t: Mem, i: nat)
    requires Owned(s) && Owned(t) && Fetched(s, u, i, ZeroTable(), ZeroPage()) && t == Rooted(u, i) && i !in s.roots && i !in s.held
    requires forall q :: Slot(u, q) == Slot(s, q)
    requires forall q :: Slot(t, q) == if q == Ref(i, 3, 0) then TableEntry(i) else Slot(u, q)
    ensures Others(s, t, i)
    ensures forall v: nat {:trigger Lookup(t, i, v)} :: !Lookup(t, i, v).v
  {
    assert i in s.free && GoodPage(s, i);
    forall r ensures Spared(s, t, i, r) { assert GoodRef(s, r); }
    forall v: nat ensures !Lookup(t, i, v).v { NoRoot(s, Leaf(i, v)); }
  }

  // ----- freeing a tree -----

  ghost predicate NoLeaves(s: Mem, r: Ref) {
    forall q: Ref {:trigger Slot(s, q)} :: q.level == 0 && Under(q, r) ==> !Slot(s, q).v
  }

  lemma NoLeavesLeft(s: Mem, i: nat)
    requires forall v: nat {:trigger Lookup(s, i, v)} :: !Lookup(s, i, v).v
    ensures NoLeaves(s, Ref(i, 3, 0))
  {
    forall q: Ref | q.level == 0 && Under(q, Ref(i, 3, 0)) ensures !Slot(s, q).v {
      AncestorIsSame(q, 3);
      assert q == Leaf(i, q.n) && !Lookup(s, i, q.n).v;
    }
  }

  predicate CanUnlink(t: Mem, r: Ref, page: nat) {
    r.level < 3 ==> page < |t.ptes| && |t.ptes[page]| == 512
  }

  /** The entry of r in its parent, which is at `page`, is cleared; a root is no root any more. */
  function Unlinked(t: Mem, r: Ref, page: nat): Mem
    requires CanUnlink(t, r, page)
  {
    if r.level < 3 then t.(ptes := t.ptes[page := t.ptes[page][r.n % 512 := ZERO]]) else t.(roots := t.roots - {r.i})
  }

  ghost predicate Same(s: Mem, t: Mem) {
    && t.lo == s.lo && t.hi == s.hi && t.held == s.held
    && (forall p: nat {:trigger Page(t, p)} :: p !in t.free ==> p !in s.free && Page(t, p) == Page(s, p))
  }

  /** Everything under r is gone, and nothing else. */
  ghost predicate Gone(s: Mem, t: Mem, r: Ref) {
    && Same(s, t) && t.roots == (if r.level < 3 then s.roots else s.roots - {r.i})
    && (forall q {:trigger Slot(t, q)} :: Slot(t, q) == if Under(q, r) then ZERO else Slot(s, q))
  }

  /** The first k entries of the page table at r are dealt with. */
  ghost predicate Swept(s: Mem, t: Mem, r: Ref, k: nat) {
    && Same(s, t) && t.roots == s.roots
    && (forall q {:trigger Slot(t, q)} :: Slot(t, q) == if Below(q, r, k) then ZERO else Slot(s, q))
  }

  lemma SweptLeaves(s: Mem, t: Mem, r: Ref, k: nat)
    requires 0 < r.level && k < 512 && Swept(s, t, r, k) && NoLeaves(s, r)
    ensures NoLeaves(t, Child(r, k))
  {
    forall q: Ref | q.level == 0 && Under(q, Child(r, k)) ensures !Slot(t, q).v { BelowMore(q, r, k); BelowMore(q, r, 511); }
  }

  lemma SweptMore(s: Mem, t: Mem, u: Mem, r: Ref, k: nat)
    requires 0 < r.level <= 3 && k < 512 && Swept(s, t, r, k) && Gone(t, u, Child(r, k))
    ensures Swept(s, u, r, k + 1)
  {
    var k1 := k + 1;
    forall q ensures Slot(u, q) == if Below(q, r, k1) then ZERO else Slot(s, q) {
      BelowMore(q, r, k);
      assert Slot(u, q) == if Under(q, Child(r, k)) then ZERO else Slot(t, q);
    }
    forall p: nat | p !in u.free ensures p !in s.free && Page(u, p) == Page(s, p) { assert Page(u, p) == Page(t, p); }
  }

  /** An entry that is not valid has nothing under it. */
  lemma SweptPast(s: Mem, t: Mem, r: Ref, k: nat)
    requires Owned(t) && 0 < r.level <= 3 && k < 512 && Swept(s, t, r, k) && !Slot(t, Child(r, k)).v
    ensures Swept(s, t, r, k + 1)
  {
    var k1 := k + 1;
    forall q ensures Slot(t, q) == if Below(q, r, k1) then ZERO else Slot(s, q) {
      BelowMore(q, r, k);
      if Under(q, Child(r, k)) { NothingUnder(t, q, Child(r, k)); }
    }
  }

  lemma {:induction false} NothingUnder(t: Mem, q: Ref, r: Ref)
    requires Owned(t) && Under(q, r) && r.level < 3 && !Slot(t, r).v
    ensures Slot(t, q) == ZERO
    decreases r.level - q.level
  {
    assert GoodRef(t, q);
    if q.level < r.level { NothingUnder(t, Up(q), r); }
  }

  /** A leaf entry of the page table at r would be a leaf under r. */
  lemma LeafUnder(s: Mem, t: Mem, r: Ref, k: nat)
    requires Owned(t) && 0 < r.level && k < 512 && Swept(s, t, r, k) && NoLeaves(s, r) && Slot(t, Child(r, k)).v
    ensures !IsLeaf(Slot(t, Child(r, k)))
  {
    var c := Child(r, k);
    assert GoodRef(t, c);
    BelowMore(c, r, k);
    BelowMore(c, r, 511);
  }

  lemma EmptyTable(s: Mem, t: Mem, r: Ref)
    requires Owned(t) && 0 < r.level <= 3 && Swept(s, t, r, 512) && Slot(t, r).v
    ensures CanCut(t, r)
  {
    var p := Slot(t, r).ppn;
    assert GoodRef(t, r) && GoodPage(t, p);
    forall k | 0 <= k < 512 ensures t.ptes[p][k] == ZERO {
      var c := Child(r, k);
      ChildOf(c, r, k);
      assert Below(c, r, 512);
      assert Slot(t, c) == ZERO && Slot(t, c) == t.ptes[p][k];
    }
    assert t.ptes[p] == ZeroTable();
  }

  lemma SweptAll(s: Mem, t: Mem, u: Mem, r: Ref)
    requires Owned(t) && 0 < r.level <= 3 && Swept(s, t, r, 512) && Slot(t, r).v && CanCut(t, r)
    requires r.level < 3 ==> Slot(t, Up(r)).ppn < |t.ptes| && |t.ptes[Slot(t, Up(r)).ppn]| == 512
    requires Slot(t, r).ppn < |t.ptes| && Slot(t, r).ppn < |t.data| && u == Dropped(t, r) && u.held == s.held
    requires forall q :: Slot(u, q) == if q == r then ZERO else Slot(t, q)
    ensures Gone(s, u, r)
  {
    forall q ensures Slot(u, q) == if Under(q, r) then ZERO else Slot(s, q) {
      BelowMore(q, r, 511);
      assert Slot(t, q) == if Below(q, r, 512) then ZERO else Slot(s, q);
    }
    forall p: nat | p !in u.free ensures p !in s.free && Page(u, p) == Page(s, p) { assert Page(t, p) == Page(s, p); }
  }

  /** Turning off the U bit of a page that may be read, written or executed. */
  lemma ClosedIsOwned(s: Mem, t: Mem, i: nat, v: nat)
    requires Owned(s) && Lookup(s, i, v).v
    requires var p := Slot(s, Up(Leaf(i, v))).ppn;
             && p < |s.ptes| && |s.ptes[p]| == 512
             && t == s.(ptes := s.ptes[p := s.ptes[p][v % 512 := s.ptes[p][v % 512].(u := false)]])
    ensures Owned(t) && Others(s, t, i)
    ensures forall r :: Slot(t, r) == if r == Leaf(i, v) then Slot(s, r).(u := false) else Slot(s, r)
  {
    forall r ensures Slot(t, r) == if r == Leaf(i, v) then Slot(s, r).(u := false) else Slot(s, r) { ClosedSlot(s, t, i, v, r); }
    forall r ensures GoodRef(t, r) { assert GoodRef(s, r); }
    forall p: nat ensures GoodPage(t, p) { assert GoodPage(s, p); }
    forall r ensures Spared(s, t, i, r) { }
  }

  lemma {:induction false} ClosedSlot(s: Mem, t: Mem, i: nat, v: nat, q: Ref)
    requires Owned(s) && Lookup(s, i, v).v
    requires var p := Slot(s, Up(Leaf(i, v))).ppn;
             && p < |s.ptes| && |s.ptes[p]| == 512
             && t == s.(ptes := s.ptes[p := s.ptes[p][v % 512 := s.ptes[p][v % 512].(u := false)]])
    ensures Slot(t, q) == if q == Leaf(i, v) then Slot(s, q).(u := false) else Slot(s, q)
    decreases 3 - q.level
  {
    if q.level < 3 {
      ClosedSlot(s, t, i, v, Up(q));
      assert GoodRef(s, Up(q)) && GoodRef(s, Up(Leaf(i, v)));
      if Slot(s, Up(q)).v && Slot(s, Up(q)).ppn == Slot(s, Up(Leaf(i, v))).ppn { SameRef(q, Leaf(i, v)); }
    }
  }

  // ----- processes -----

  /** The trampoline is code that user code cannot reach, the trapframe data that it cannot reach. */
  function TrampolineEntry(p: nat): Pte {
    Pte(p, true, true, false, true, false)
  }

  function TrapframeEntry(p: nat): Pte {
    Pte(p, true, true, true, false, false)
  }

  /** A process of sz bytes has nothing mapped past them but the trampoline and a trapframe. */
  ghost predicate Tidy(s: Mem, i: nat, sz: nat, trampoline: nat) {
    && i in s.roots && Pages(sz) <= TRAPFRAME
    && Lookup(s, i, TRAMPOLINE) == TrampolineEntry(trampoline)
    && Lookup(s, i, TRAPFRAME) == TrapframeEntry(Lookup(s, i, TRAPFRAME).ppn)
    && (forall v: nat {:trigger Lookup(s, i, v)} :: Lookup(s, i, v).v ==> v < Pages(sz) || v == TRAMPOLINE || v == TRAPFRAME)
  }

  /** The page that user code reaches at virtual page v, 0 if none. */
  function UserPage(s: Mem, i: nat, v: nat): nat {
    if v <= TRAMPOLINE && Lookup(s, i, v).v && Lookup(s, i, v).u then Lookup(s, i, v).ppn else 0
  }

  /** User code reaches nothing past the size of its process: not the trampoline, not the trapframe. */
  lemma NothingPastTheSize(s: Mem, i: nat, sz: nat, trampoline: nat, v: nat)
    requires Tidy(s, i, sz, trampoline) && v >= Pages(sz)
    ensures UserPage(s, i, v) == 0
  {
    assert Lookup(s, i, v).v ==> v == TRAMPOLINE || v == TRAPFRAME;
  }

  /** Changes below the size leave a process tidy: growing, faulting, being the child of a fork. */
  lemma TidyStays(s: Mem, t: Mem, i: nat, sz: nat, a: nat, b: nat, newsz: nat, trampoline: nat)
    requires Tidy(s, i, sz, trampoline) && Changes(s, t, i, a, b) && b <= Pages(newsz) <= TRAPFRAME && Pages(sz) <= Pages(newsz)
    ensures Tidy(t, i, newsz, trampoline)
  {
    forall v: nat ensures Lookup(t, i, v).v ==> v < Pages(newsz) || v == TRAMPOLINE || v == TRAPFRAME {
      assert Stays(s, t, i, a, b, Leaf(i, v)) && (a <= v < b || Lookup(t, i, v) == Lookup(s, i, v));
    }
    assert Stays(s, t, i, a, b, Leaf(i, TRAMPOLINE)) && Stays(s, t, i, a, b, Leaf(i, TRAPFRAME));
  }

  lemma TidyShrinks(s: Mem, t: Mem, i: nat, sz: nat, newsz: nat, trampoline: nat)
    requires Tidy(s, i, sz, trampoline) && newsz <= sz && Changes(s, t, i, Pages(newsz), Pages(sz))
    requires forall w: nat {:trigger Lookup(t, i, w)} :: Pages(newsz) <= w < Pages(sz) ==> Lookup(t, i, w) == ZERO
    ensures Tidy(t, i, newsz, trampoline)
  {
    forall v: nat ensures Lookup(t, i, v).v ==> v < Pages(newsz) || v == TRAMPOLINE || v == TRAPFRAME {
      assert Stays(s, t, i, Pages(newsz), Pages(sz), Leaf(i, v)) && (Pages(newsz) <= v < Pages(sz) || Lookup(t, i, v) == Lookup(s, i, v));
    }
    assert Stays(s, t, i, Pages(newsz), Pages(sz), Leaf(i, TRAMPOLINE)) && Stays(s, t, i, Pages(newsz), Pages(sz), Leaf(i, TRAPFRAME));
  }

  /** Every place refers to what it did, every page of a process and every held page has the same bytes. */
  ghost predicate Intact(s: Mem, t: Mem) {
    && t.lo == s.lo && t.hi == s.hi && t.held == s.held && t.roots == s.roots
    && (forall r {:trigger Kept(s, t, r)} :: Kept(s, t, r))
    && (forall p: nat {:trigger Page(t, p)} :: p in t.held ==> Page(t, p) == Page(s, p))
  }

  lemma IntactItself(s: Mem)
    ensures Intact(s, s)
  {
    forall r ensures Kept(s, s, r) { }
  }

  lemma IntactFromOthers(s: Mem, t: Mem, i: nat)
    requires Others(s, t, i) && i !in s.roots && i !in t.roots
    ensures Intact(s, t)
  {
    assert s.roots == s.roots - {i} && t.roots == t.roots - {i};
    forall r ensures Kept(s, t, r) {
      if r.i == i { NoRoot(s, r); NoRoot(t, r); } else { assert Spared(s, t, i, r); }
    }
  }

  /** Once an address space is gone, the pages it had are free. */
  lemma AllReturned(s: Mem, t: Mem, i: nat)
    requires Owned(s) && Owned(t) && Others(s, t, i) && i !in t.roots
    ensures forall p: nat {:trigger p in t.free} :: p in s.owner && s.owner[p].i == i ==> p in t.free
  {
    forall p: nat | p in s.owner && s.owner[p].i == i ensures p in t.free {
      assert GoodPage(s, p) && GoodPage(t, p);
      if p in t.owner { OwnerStays(s, t, i, p); }
    }
  }

  lemma OwnerStays(s: Mem, t: Mem, i: nat, p: nat)
    requires Owned(s) && Owned(t) && Others(s, t, i) && i !in t.roots && p in t.owner
    ensures p in s.owner && s.owner[p] == t.owner[p] && s.owner[p].i != i
  {
    var r := t.owner[p];
    assert GoodPage(t, p);
    if r.i == i { NoRoot(t, r); }
    assert Spared(s, t, i, r) && GoodRef(s, r);
  }

  /** The free list after freerange. */
  lemma AllFree(s: Mem)
    requires 0 < s.lo <= s.hi && |s.ptes| == |s.data| == s.hi && s.roots == {} && s.held == {} && s.owner == map[]
    requires forall p :: 0 <= p < s.hi ==> |s.ptes[p]| == 512 && |s.data[p]| == 4096
    requires |s.free| == s.hi - s.lo && forall k :: 0 <= k < |s.free| ==> s.free[k] == s.hi - 1 - k
    ensures Owned(s)
  {
    forall r ensures GoodRef(s, r) { NoRoot(s, r); }
    forall p: nat ensures GoodPage(s, p) {
      if Ram(s, p) { assert s.free[s.hi - 1 - p] == p; }
    }
  }

  /** Nothing but address space j has changed. */
  ghost predicate AllKept(s: Mem, t: Mem, j: nat) {
    forall r: Ref {:trigger Kept(s, t, r)} :: r.i != j ==> Kept(s, t, r)
  }

  lemma IntactLosesNothing(s: Mem, t: Mem)
    requires Owned(s) && Owned(t) && Intact(s, t)
    ensures |t.free| == |s.free|
  {
    forall r ensures Slot(t, r) == Slot(s, r) { assert Kept(s, t, r); }
    NothingLost(s, t);
  }

  lemma OthersFromIntact(s: Mem, t: Mem, i: nat)
    requires Intact(s, t)
    ensures Others(s, t, i)
  {
    forall r ensures Spared(s, t, i, r) { assert Kept(s, t, r); }
  }

  lemma FreeIsNoRoot(s: Mem, p: nat)
    requires Owned(s) && p in s.free
    ensures p !in s.roots && p !in s.held
  {
    assert GoodPage(s, p) && GoodRef(s, Ref(p, 3, 0));
  }

  /** Taking a page, doing something to address space j, and giving the page back. */
  lemma TakenBack(s: Mem, t: Mem, u: Mem, w: Mem, p: nat, j: nat)
    requires Owned(s) && Owned(u) && Fetched(s, t, p, JunkTable(5), JunkPage(5)) && (forall r :: Slot(t, r) == Slot(s, r)) && p !in s.held
    requires Others(t, u, j) && p < |u.ptes| && p < |u.data| && w == Returned(Filled(u, p, JunkTable(1), JunkPage(1)), p)
    requires forall r :: Slot(w, r) == Slot(u, r)
    ensures Others(s, w, j)
  {
    assert p in s.free && GoodPage(s, p) && GoodPage(u, p);
    forall r ensures Spared(s, w, j, r) {
      assert Spared(t, u, j, r) && GoodRef(s, r) && GoodRef(u, r);
      if r.level == 0 && Owning(r) && Slot(s, r).v { assert Page(w, Slot(s, r).ppn) == Page(u, Slot(s, r).ppn); }
    }
    forall q: nat | q in w.held ensures Page(w, q) == Page(s, q) { assert Page(w, q) == Page(u, q); }
  }

  /** A fork that goes well. */
  lemma Forked(s: Mem, t: Mem, u: Mem, v: Mem, i: nat, j: nat, sz: nat, p: nat)
    requires Owned(s) && Fetched(s, t, p, JunkTable(5), JunkPage(5)) && (forall r :: Slot(t, r) == Slot(s, r)) && i != j
    requires Others(t, u, j) && Changes(u, v, j, 0, Pages(sz)) && AllCopied(u, v, i, j, Pages(sz)) && Pages(sz) <= TRAPFRAME
    ensures AllKept(s, v, j) && AllCopied(s, v, i, j, Pages(sz))
  {
    assert p in s.free && GoodPage(s, p);
    forall r: Ref | r.i != j ensures Kept(s, u, r) && Kept(s, v, r) {
      assert Spared(t, u, j, r) && Stays(u, v, j, 0, Pages(sz), r) && GoodRef(s, r);
      if r.level == 0 && Owning(r) && Slot(s, r).v { assert Page(t, Slot(s, r).ppn) == Page(s, Slot(s, r).ppn); }
    }
    forall w: nat | w < Pages(sz) ensures Copied(s, v, i, j, w) {
      assert Copied(u, v, i, j, w) && Kept(s, u, Leaf(i, w));
    }
  }
}
