/** malloc and free over a ring of headers in memory. (projects/07-xv6plus/user/umalloc.c) */
module Allocator {
  import opened FreeList

  // ----- the ring that stands for the list -----

  function Next(n: nat, i: nat): nat {
    if i + 1 < n then i + 1 else 0
  }

  /** The header of block i is in memory and points to the next block, the last one to the first. */
  predicate Node(ptr: map<nat, nat>, size: map<nat, nat>, l: seq<Block>, i: nat) {
    i < |l| ==>
      && l[i].addr in ptr && l[i].addr in size
      && ptr[l[i].addr] == l[Next(|l|, i)].addr && size[l[i].addr] == l[i].size
  }

  ghost predicate Ring(ptr: map<nat, nat>, size: map<nat, nat>, l: seq<Block>) {
    forall i: nat {:trigger Node(ptr, size, l, i)} :: Node(ptr, size, l, i)
  }

  lemma {:induction false} InLine(l: seq<Block>, i: nat, j: nat)
    requires Ordered(l) && i < j < |l|
    ensures l[i].addr < l[j].addr && End(l[i]) <= l[j].addr && l[j].size > 0
  {
    assert Follows(l, j - 1);
    if i < j - 1 {
      InLine(l, i, j - 1);
    }
  }

  lemma SameAddrSameBlock(l: seq<Block>, i: nat, j: nat)
    requires Ordered(l) && i < |l| && j < |l| && l[i].addr == l[j].addr
    ensures i == j
  {
    if i < j { InLine(l, i, j); } else if j < i { InLine(l, j, i); }
  }

  /** Linking `b` in behind block j. */
  lemma RingInserted(ptr: map<nat, nat>, size: map<nat, nat>, l: seq<Block>, j: nat, b: Block)
    requires Ring(ptr, size, l) && Good(l) && Fits(l, j, b) && b.addr in size && size[b.addr] == b.size
    ensures l[j].addr in ptr && Ring(ptr[b.addr := ptr[l[j].addr]][l[j].addr := b.addr], size, Inserted(l, j, b))
  {
    assert Node(ptr, size, l, j);
    var r, after := Inserted(l, j, b), ptr[b.addr := ptr[l[j].addr]][l[j].addr := b.addr];
    InsertedIsOrdered(l, j, b);
    forall k: nat ensures Node(after, size, r, k) {
      var m := if k > j then k - 1 else k;
      assert Node(ptr, size, l, m);
      if k < |r| {
        if r[k].addr == b.addr { SameAddrSameBlock(r, k, j + 1); }
        if r[k].addr == l[j].addr { SameAddrSameBlock(r, k, j); }
      }
    }
  }

  /** Joining block i with the next one. */
  lemma RingJoined(ptr: map<nat, nat>, size: map<nat, nat>, l: seq<Block>, i: nat)
    requires Ring(ptr, size, l) && Ordered(l) && Touches(l, i)
    ensures l[i + 1].addr in ptr
    ensures Ring(ptr[l[i].addr := ptr[l[i + 1].addr]], size[l[i].addr := l[i].size + l[i + 1].size], Joined(l, i))
  {
    assert Node(ptr, size, l, i) && Node(ptr, size, l, i + 1);
    var r, ptr', size' := Joined(l, i), ptr[l[i].addr := ptr[l[i + 1].addr]], size[l[i].addr := l[i].size + l[i + 1].size];
    forall k: nat ensures Node(ptr', size', r, k) {
      var m := if k > i then k + 1 else k;
      assert Node(ptr, size, l, m);
      if m < |l| && l[m].addr == l[i].addr { SameAddrSameBlock(l, m, i); }
    }
  }

  /** Linking `b` in and joining it upwards, as free does it: the predecessor is linked last. */
  lemma RingJoinedUp(ptr: map<nat, nat>, size: map<nat, nat>, l: seq<Block>, j: nat, b: Block)
    requires Ring(ptr, size, l) && Good(l) && Fits(l, j, b) && b.addr in size && size[b.addr] == b.size
    ensures l[j].addr in ptr && ptr[l[j].addr] in ptr && ptr[l[j].addr] in size
    ensures var next, r := ptr[l[j].addr], Joined(Inserted(l, j, b), j + 1);
      if End(b) == next then Ring(ptr[b.addr := ptr[next]][l[j].addr := b.addr], size[b.addr := b.size + size[next]], r)
      else Ring(ptr[b.addr := next][l[j].addr := b.addr], size, r)
  {
    var r := Inserted(l, j, b);
    RingInserted(ptr, size, l, j, b);
    InsertedIsOrdered(l, j, b);
    assert Node(ptr, size, l, j) && Node(ptr, size, l, Next(|l|, j));
    if 0 < j { InLine(l, 0, j); }
    var next := ptr[l[j].addr];
    assert j + 1 < |l| ==> r[j + 2] == l[j + 1];
    assert Touches(r, j + 1) <==> End(b) == next;
    if End(b) == next {
      RingJoined(ptr[b.addr := next][l[j].addr := b.addr], size, r, j + 1);
      assert next != b.addr && next != l[j].addr;
      assert ptr[b.addr := next][l[j].addr := b.addr][b.addr := ptr[next]] == ptr[b.addr := ptr[next]][l[j].addr := b.addr];
    }
  }

  /** Unlinking block i. */
  lemma RingRemoved(ptr: map<nat, nat>, size: map<nat, nat>, l: seq<Block>, i: nat)
    requires Ring(ptr, size, l) && Ordered(l) && 0 < i < |l|
    ensures l[i].addr in ptr && Ring(ptr[l[i - 1].addr := ptr[l[i].addr]], size, l[..i] + l[i + 1..])
  {
    assert Node(ptr, size, l, i) && Node(ptr, size, l, i - 1);
    var r, after := l[..i] + l[i + 1..], ptr[l[i - 1].addr := ptr[l[i].addr]];
    forall k: nat ensures Node(after, size, r, k) {
      var m := if k < i then k else k + 1;
      assert Node(ptr, size, l, m);
      if m < |l| && l[m].addr == l[i - 1].addr { SameAddrSameBlock(l, m, i - 1); }
    }
  }

  /** Shrinking block i, and writing a header that is not a list block's. */
  lemma RingShrunk(ptr: map<nat, nat>, size: map<nat, nat>, l: seq<Block>, i: nat, less: nat, q: nat, n: nat)
    requires Ring(ptr, size, l) && Ordered(l) && i < |l| && forall k :: 0 <= k < |l| ==> l[k].addr != q
    ensures Ring(ptr, size[l[i].addr := less][q := n], l[i := Block(l[i].addr, less)])
  {
    var r, size' := l[i := Block(l[i].addr, less)], size[l[i].addr := less][q := n];
    forall k: nat ensures Node(ptr, size', r, k) {
      assert Node(ptr, size, l, k);
      if k < |l| && l[k].addr == l[i].addr { SameAddrSameBlock(l, k, i); }
    }
  }

  // ----- who owns which memory -----

  /** The free list, the live allocations (by header address, in units) and every address ever
      obtained from sbrk. */
  datatype Heap = Heap(free: seq<Block>, live: map<nat, nat>, arena: set<int>)

  ghost predicate InLive(live: map<nat, nat>, x: int) {
    exists a :: a in live && Inside(Block(a, live[a]), x)
  }

  /** An address from sbrk is either free or in a live allocation, not both; no other address is either. */
  ghost predicate Owned(h: Heap, x: int) {
    && (x in h.arena <==> Covered(h.free, x) || InLive(h.live, x))
    && !(Covered(h.free, x) && InLive(h.live, x))
  }

  predicate Apart(live: map<nat, nat>, a: nat, c: nat) {
    a in live && c in live ==> live[a] > 0 && (a < c ==> a + 16 * live[a] <= c)
  }

  /** `base` lies below, the program break above all memory from sbrk. */
  ghost predicate Sound(h: Heap, base: nat, brk: nat) {
    && Good(h.free) && h.free[0].addr == base
    && (forall x {:trigger Owned(h, x)} :: Owned(h, x))
    && (forall a: nat, c: nat {:trigger Apart(h.live, a, c)} :: Apart(h.live, a, c))
    && (forall x :: x in h.arena ==> base + 16 <= x < brk)
    && base + 16 <= brk
  }

  function Span(a: nat, n: nat): set<int> {
    set x: int | a <= x < a + 16 * n && Inside(Block(a, n), x)
  }

  lemma LiveIsAbove(h: Heap, base: nat, brk: nat, a: nat)
    requires Sound(h, base, brk) && a in h.live
    ensures h.live[a] > 0 && base + 16 <= a && a + 16 * h.live[a] <= brk
    ensures forall i :: 0 <= i < |h.free| ==> h.free[i].addr != a
  {
    assert Apart(h.live, a, a);
    var b := Block(a, h.live[a]);
    assert Inside(b, a) && Inside(b, End(b) - 1);
    assert Owned(h, a) && Owned(h, End(b) - 1);
    forall i | 0 <= i < |h.free| ensures h.free[i].addr != a {
      if i > 0 {
        InLine(h.free, 0, i);
        assert h.free[i].addr == a ==> Inside(h.free[i], a);
      }
    }
  }

  /** A live block fits where the addresses of its neighbours put it. */
  lemma LiveFits(h: Heap, base: nat, brk: nat, a: nat, j: nat)
    requires Sound(h, base, brk) && a in h.live && j < |h.free|
    requires h.free[j].addr < a && (j + 1 < |h.free| ==> a < h.free[j + 1].addr)
    ensures Fits(h.free, j, Block(a, h.live[a]))
  {
    LiveIsAbove(h, base, brk, a);
    var b, l := Block(a, h.live[a]), h.free;
    assert Inside(b, a) && Owned(h, a);
    assert !Inside(l[j], a);
    if j + 1 < |l| {
      assert Follows(l, j);
      var x := l[j + 1].addr;
      assert Inside(l[j + 1], x) && Owned(h, x);
      assert !Inside(b, x);
    }
  }

  lemma FreedIsSound(h: Heap, base: nat, brk: nat, a: nat, j: nat)
    requires Sound(h, base, brk) && a in h.live && Fits(h.free, j, Block(a, h.live[a]))
    ensures Sound(Heap(Freed(h.free, j, Block(a, h.live[a])), h.live - {a}, h.arena), base, brk)
  {
    var b := Block(a, h.live[a]);
    var h' := Heap(Freed(h.free, j, b), h.live - {a}, h.arena);
    FreedIsGood(h.free, j, b);
    forall x ensures Owned(h', x) {
      assert Owned(h, x);
      FreedCovers(h.free, j, b, x);
      LiveSplits(h, base, brk, a, x);
    }
    forall c: nat, d: nat ensures Apart(h'.live, c, d) {
      assert Apart(h.live, c, d);
    }
    assert h'.free[0].addr == base by { BaseStays(h.free, j, b); }
  }

  lemma BaseStays(l: seq<Block>, j: nat, b: Block)
    requires Good(l) && Fits(l, j, b)
    ensures Freed(l, j, b)[0].addr == l[0].addr
  {
  }

  lemma PlaceStays(l: seq<Block>, j: nat, b: Block)
    requires Good(l) && Fits(l, j, b)
    ensures l[j].addr >= l[0].addr && exists i :: 0 <= i < |Freed(l, j, b)| && Freed(l, j, b)[i].addr == l[j].addr
  {
    if 0 < j { InOrder(l, 0, j); }
    assert Freed(l, j, b)[j].addr == l[j].addr;
  }

  lemma LiveSplits(h: Heap, base: nat, brk: nat, a: nat, x: int)
    requires Sound(h, base, brk) && a in h.live
    ensures InLive(h.live, x) <==> InLive(h.live - {a}, x) || Inside(Block(a, h.live[a]), x)
    ensures !(InLive(h.live - {a}, x) && Inside(Block(a, h.live[a]), x))
  {
    var less := h.live - {a};
    if InLive(h.live, x) && !Inside(Block(a, h.live[a]), x) {
      var c :| c in h.live && Inside(Block(c, h.live[c]), x);
      assert c in less;
    }
    if InLive(less, x) {
      var c :| c in less && Inside(Block(c, less[c]), x);
      assert Apart(h.live, a, c) && Apart(h.live, c, a);
    }
  }

  lemma LiveGrows(live: map<nat, nat>, a: nat, n: nat, x: int)
    requires a !in live
    ensures InLive(live[a := n], x) <==> InLive(live, x) || Inside(Block(a, n), x)
  {
    var more := live[a := n];
    if InLive(live, x) {
      var c :| c in live && Inside(Block(c, live[c]), x);
      assert c in more && more[c] == live[c];
    }
    if Inside(Block(a, n), x) { assert a in more && more[a] == n; }
  }

  /** Memory fresh from sbrk, as a live block. */
  lemma GrownIsSound(h: Heap, base: nat, brk: nat, a: nat, n: nat)
    requires Sound(h, base, brk) && brk <= a && n > 0
    ensures a !in h.live && Sound(Heap(h.free, h.live[a := n], h.arena + Span(a, n)), base, a + 16 * n)
  {
    if a in h.live { LiveIsAbove(h, base, brk, a); }
    var h' := Heap(h.free, h.live[a := n], h.arena + Span(a, n));
    forall x ensures Owned(h', x) {
      assert Owned(h, x);
      LiveGrows(h.live, a, n, x);
    }
    forall c: nat, d: nat ensures Apart(h'.live, c, d) {
      assert Apart(h.live, c, d);
      if c in h.live { LiveIsAbove(h, base, brk, c); }
      if d in h.live { LiveIsAbove(h, base, brk, d); }
    }
  }

  /** Part of a free block, as a live block. */
  lemma TakenIsSound(h: Heap, base: nat, brk: nat, i: nat, n: nat)
    requires Sound(h, base, brk) && 0 < i < |h.free| && 0 < n <= h.free[i].size
    ensures var b := TakenBlock(h.free, i, n);
      b.addr !in h.live && Sound(Heap(Taken(h.free, i, n), h.live[b.addr := n], h.arena), base, brk)
  {
    var b := TakenBlock(h.free, i, n);
    var h' := Heap(Taken(h.free, i, n), h.live[b.addr := n], h.arena);
    TakenIsGood(h.free, i, n);
    TakenIsNotLive(h, base, brk, i, n);
    forall x ensures Owned(h', x) {
      assert Owned(h, x);
      TakenCovers(h.free, i, n, x);
      LiveGrows(h.live, b.addr, n, x);
    }
    forall c: nat, d: nat ensures Apart(h'.live, c, d) {
      assert Apart(h.live, c, d) && Apart(h.live, c, c) && Apart(h.live, d, d);
    }
  }

  /** No live block reaches into a free one. */
  lemma TakenIsNotLive(h: Heap, base: nat, brk: nat, i: nat, n: nat)
    requires Sound(h, base, brk) && 0 < i < |h.free| && 0 < n <= h.free[i].size
    ensures var b := TakenBlock(h.free, i, n);
      b.addr !in h.live && forall c :: c in h.live ==> c + 16 * h.live[c] <= b.addr || End(b) <= c
  {
    var b := TakenBlock(h.free, i, n);
    forall c | c in h.live ensures c != b.addr && (c + 16 * h.live[c] <= b.addr || End(b) <= c) {
      LiveIsAbove(h, base, brk, c);
      assert Inside(h.free[i], b.addr) && Owned(h, b.addr);
      assert !Inside(Block(c, h.live[c]), b.addr);
      assert Inside(Block(c, h.live[c]), c) && Owned(h, c);
      assert !Inside(h.free[i], c);
    }
  }

  /** Freeing what was just allocated restores the very same free list, whichever block it came from and
      whether or not it was all of it. */
  lemma FreeUndoesMalloc(l: seq<Block>, i: nat, n: nat, j: nat)
    requires Good(l) && 0 < i < |l| && 0 < n <= l[i].size && Fits(Taken(l, i, n), j, TakenBlock(l, i, n))
    ensures Freed(Taken(l, i, n), j, TakenBlock(l, i, n)) == l
  {
    var t, b := Taken(l, i, n), TakenBlock(l, i, n);
    TakenIsGood(l, i, n);
    FreedIsGood(t, j, b);
    BaseStays(t, j, b);
    forall x ensures Covered(Freed(t, j, b), x) <==> Covered(l, x) {
      TakenCovers(l, i, n, x);
      FreedCovers(t, j, b, x);
    }
    SameCoverSameList(Freed(t, j, b), l);
  }

  // ----- the search for a freed block's place -----

  /** Where a live block goes. */
  lemma PlaceExists(l: seq<Block>, a: nat) returns (j: nat)
    requires Ordered(l) && l[0].addr < a && forall i :: 0 <= i < |l| ==> l[i].addr != a
    ensures j < |l| && l[j].addr < a && (j + 1 < |l| ==> a < l[j + 1].addr)
  {
    j := 0;
    while j + 1 < |l| && l[j + 1].addr < a
      invariant j < |l| && l[j].addr < a
    {
      j := j + 1;
    }
  }

  /** free's test at block k holds at the right place and nowhere else. */
  lemma TestIsRight(l: seq<Block>, a: nat, j: nat, k: nat)
    requires Ordered(l) && j < |l| && k < |l| && l[0].addr < a
    requires l[j].addr < a && (j + 1 < |l| ==> a < l[j + 1].addr)
    ensures var p, q := l[k].addr, l[Next(|l|, k)].addr;
      (a > p && a < q) || (p >= q && (a > p || a < q)) <==> k == j
  {
    assert Follows(l, k) && Follows(l, j);
    if k < j { InLine(l, k, j); }
    if j < k { InLine(l, j, k); }
    if 0 < k { InLine(l, 0, k); }
    if k + 1 < j { InLine(l, k + 1, j); }
    if j + 1 < k { InLine(l, j + 1, k); }
  }

  /** Steps along the ring from block k to block j. */
  function Steps(n: nat, k: nat, j: nat): nat
    requires k < n && j < n
  {
    if k <= j then j - k else n - k + j
  }

  // ----- the allocator -----

  ghost predicate SomeFits(l: seq<Block>, n: nat) {
    exists i :: 0 <= i < |l| && l[i].size >= n
  }

  /** sbrk takes an int: the byte count is cut to 32 bits. */
  function SbrkArg(units: nat): int {
    var n := units * 16 % 0x1_0000_0000;
    if n < 0x8000_0000 then n else n - 0x1_0000_0000
  }

  function Units(nbytes: nat): (n: nat)
    ensures n > 0 && 16 * (n - 1) >= nbytes && 16 * n < nbytes + 32
  {
    (nbytes + 15) / 16 + 1
  }

  const MAX_REQUEST := 0x8000_0000 - 32

  /** What malloc asks of sbrk is what it needs exactly for requests up to MAX_REQUEST bytes; beyond that,
      up to the largest uint, the count is negative or far too small. */
  lemma RequestReachesSbrk(nbytes: nat)
    requires nbytes < 0x1_0000_0000
    ensures SbrkArg(Units(nbytes)) == 16 * Units(nbytes) <==> nbytes <= MAX_REQUEST
  {
  }

  /** A call of sbrk for n bytes, and what came of it: memory at an address, or nothing. */
  datatype Ask = Granted(n: nat, at: nat) | Refused(n: nat)

  /** How many units morecore asks for. */
  function MoreUnits(nu: nat): (n: nat)
    ensures n >= nu && n >= 4096 && (n == nu || n == 4096)
  {
    if nu < 4096 then 4096 else nu
  }

  class Umalloc {
    var ptr: map<nat, nat>    // s.ptr of the header at an address
    var size: map<nat, nat>   // s.size
    const base: nat
    var freep: nat            // 0 until the first call
    var brk: nat              // the program break
    ghost var h: Heap
    ghost var asks: seq<Ask>  // all calls of sbrk

    ghost predicate Valid()
      reads this
    {
      && 0 < base && Sound(h, base, brk)
      && (forall a :: a in h.live ==> a in size && size[a] == h.live[a])
      && if freep == 0 then h == Heap([Block(base, 0)], map[], {})
         else Ring(ptr, size, h.free) && exists i :: 0 <= i < |h.free| && h.free[i].addr == freep
    }

    constructor (base: nat, brk: nat)
      requires 0 < base && base + 16 <= brk
      ensures Valid() && h == Heap([Block(base, 0)], map[], {}) && this.base == base && asks == []
    {
      this.base, this.brk := base, brk;
      ptr, size, freep := map[], map[], 0;
      h, asks := Heap([Block(base, 0)], map[], {}), [];
      new;
      NothingYet(base, brk);
    }

    /** sbrk: more memory at the program break, which other parts of the program may have moved up; or
        nothing. */
    method Sbrk(n: nat) returns (ok: bool, p: nat)
      modifies this`brk, this`asks
      ensures if ok then old(brk) <= p && brk == p + n else brk == old(brk)
      ensures asks == old(asks) + [if ok then Granted(n, p) else Refused(n)]
    {
      ok := *;
      p := brk;
      var gap: int := *;
      if ok {
        p := brk + if gap > 0 then gap else 0;
        brk := p + n;
      }
      asks := asks + [if ok then Granted(n, p) else Refused(n)];
    }

    /** free. The block joins the free memory; nothing else changes hands. */
    method Free(ap: nat)
      requires Valid() && freep != 0 && ap >= 16 && ap - 16 in h.live
      modifies this`ptr, this`size, this`freep, this`h
      ensures Valid() && freep != 0
      ensures h.live == old(h).live - {ap - 16} && h.arena == old(h).arena
      ensures SomeFits(h.free, old(h).live[ap - 16])
    {
      var bp := ap - 16;
      ghost var b := Block(bp, h.live[bp]);
      LiveIsAbove(h, base, brk, bp);
      ghost var j := PlaceExists(h.free, bp);
      LiveFits(h, base, brk, bp, j);
      var p := Find(bp, j);
      FreedIsSound(h, base, brk, bp, j);
      FreedHolds(h.free, j, b);
      forall a | a in h.live ensures a != p {
        LiveIsAbove(h, base, brk, a);
      }
      PlaceStays(h.free, j, b);
      Insert(bp, p, h.free, j);
      h := Heap(Freed(h.free, j, b), h.live - {bp}, h.arena);
      freep := p;
    }

    /** free's search from freep for the place of `bp`. */
    method Find(bp: nat, ghost j: nat) returns (p: nat)
      requires Ordered(h.free) && Ring(ptr, size, h.free) && exists i :: 0 <= i < |h.free| && h.free[i].addr == freep
      requires j < |h.free| && h.free[0].addr < bp && h.free[j].addr < bp && (j + 1 < |h.free| ==> bp < h.free[j + 1].addr)
      ensures p == h.free[j].addr
    {
      ghost var l := h.free;
      p := freep;
      ghost var k: nat :| k < |l| && l[k].addr == freep;
      assert Node(ptr, size, l, k);
      while !(bp > p && bp < ptr[p])
        invariant k < |l| && p == l[k].addr && p in ptr && ptr[p] == l[Next(|l|, k)].addr
        decreases Steps(|l|, k, j)
      {
        TestIsRight(l, bp, j, k);
        if p >= ptr[p] && (bp > p || bp < ptr[p]) {
          return;
        }
        p := ptr[p];
        k := Next(|l|, k);
        assert Node(ptr, size, l, k);
      }
      TestIsRight(l, bp, j, k);
    }

    /** free's two joins, around the block p after which `bp` goes. */
    method Insert(bp: nat, p: nat, ghost l: seq<Block>, ghost j: nat)
      requires Good(l) && Ring(ptr, size, l) && bp in size && Fits(l, j, Block(bp, size[bp])) && p == l[j].addr
      modifies this`ptr, this`size
      ensures Ring(ptr, size, Freed(l, j, Block(bp, old(size)[bp])))
      ensures forall a :: a in old(size) && a != bp && a != p ==> a in size && size[a] == old(size)[a]
    {
      ghost var b := Block(bp, size[bp]);
      RingInserted(ptr, size, l, j, b);
      InsertedIsOrdered(l, j, b);
      JoinedIsOrdered(Inserted(l, j, b), j + 1);
      JoinUp(bp, p, l, j);
      JoinDown(bp, p, Joined(Inserted(l, j, b), j + 1), j);
    }

    method JoinUp(bp: nat, p: nat, ghost l: seq<Block>, ghost j: nat)
      requires Good(l) && Ring(ptr, size, l) && bp in size && Fits(l, j, Block(bp, size[bp])) && p == l[j].addr
      modifies this`ptr, this`size
      ensures Ring(ptr[p := bp], size, Joined(Inserted(l, j, Block(bp, old(size)[bp])), j + 1))
      ensures forall a :: a in old(size) && a != bp ==> a in size && size[a] == old(size)[a]
    {
      RingJoinedUp(ptr, size, l, j, Block(bp, size[bp]));
      var next := ptr[p];
      if bp + 16 * size[bp] == next {
        size, ptr := size[bp := size[bp] + size[next]], ptr[bp := ptr[next]];
      } else {
        ptr := ptr[bp := next];
      }
    }

    method JoinDown(bp: nat, p: nat, ghost r: seq<Block>, ghost j: nat)
      requires Ordered(r) && Ring(ptr[p := bp], size, r) && j + 1 < |r| && r[j].addr == p && r[j + 1].addr == bp
      modifies this`ptr, this`size
      ensures Ring(ptr, size, Joined(r, j))
      ensures forall a :: a in old(size) && a != p ==> a in size && size[a] == old(size)[a]
    {
      assert Node(ptr[p := bp], size, r, j) && Node(ptr[p := bp], size, r, j + 1) && Follows(r, j);
      if p + 16 * size[p] == bp {
        RingJoined(ptr[p := bp], size, r, j);
        assert ptr[p := bp][p := ptr[bp]] == ptr[p := ptr[bp]];
        size, ptr := size[p := size[p] + size[bp]], ptr[p := ptr[bp]];
      } else {
        ptr := ptr[p := bp];
      }
    }

    // ----- malloc -----

    /** morecore: at least 4096 more units, put on the free list by freeing them. It asks sbrk once. */
    method Morecore(nu: nat) returns (p: nat)
      requires Valid() && freep != 0 && nu > 0 && SbrkArg(nu) == 16 * nu
      modifies this`ptr, this`size, this`freep, this`brk, this`h, this`asks
      ensures Valid() && freep != 0 && h.live == old(h).live
      ensures p == 0 ==> h == old(h) && freep == old(freep) && brk == old(brk) && asks == old(asks) + [Refused(16 * MoreUnits(nu))]
      ensures p != 0 ==> p == freep && old(h).arena < h.arena && SomeFits(h.free, nu) && Extended(old(h).arena, h.arena, old(brk), brk, old(asks), asks, nu)
    {
      var n := MoreUnits(nu);
      var ok, hp := Sbrk(16 * n);
      if !ok {
        return 0;
      }
      p := Adopt(hp, n, old(brk));
    }

    /** What sbrk gave becomes a live block, and is freed. */
    method Adopt(hp: nat, n: nat, ghost was: nat) returns (p: nat)
      requires 0 < base && Sound(h, base, was) && was <= hp && brk == hp + 16 * n && n > 0 && freep != 0
      requires (forall a :: a in h.live ==> a in size && size[a] == h.live[a])
      requires Ring(ptr, size, h.free) && exists i :: 0 <= i < |h.free| && h.free[i].addr == freep
      modifies this`ptr, this`size, this`freep, this`h
      ensures Valid() && freep == p != 0 && h.live == old(h).live && old(h).arena < h.arena && h.arena == old(h).arena + Span(hp, n)
      ensures SomeFits(h.free, n)
    {
      GrownIsSound(h, base, was, hp, n);
      FreeIsBelow(h, base, was);
      RingElsewhere(ptr, size, h.free, hp, n);
      assert Inside(Block(hp, n), hp) && hp in Span(hp, n) && hp !in h.arena;
      size := size[hp := n];
      h := Heap(h.free, h.live[hp := n], h.arena + Span(hp, n));
      assert hp !in old(h).live && old(h).live[hp := n] - {hp} == old(h).live;
      Free(hp + 16);
      p := freep;
    }

    /** Takes n units off block i, whose predecessor in the ring is `prevp`. */
    method Take(prevp: nat, p: nat, n: nat, ghost i: nat) returns (a: nat)
      requires Valid() && freep != 0 && 0 < i < |h.free| && p == h.free[i].addr && prevp == h.free[i - 1].addr && 0 < n <= h.free[i].size
      modifies this`ptr, this`size, this`freep, this`h
      ensures Valid() && freep != 0 && a == TakenBlock(old(h).free, i, n).addr && a !in old(h).live
      ensures h == Heap(Taken(old(h).free, i, n), old(h).live[a := n], old(h).arena)
    {
      ghost var l := h.free;
      assert Node(ptr, size, l, i) && Node(ptr, size, l, i - 1);
      TakenIsSound(h, base, brk, i, n);
      a := p;
      if size[p] == n {
        RingRemoved(ptr, size, l, i);
        ptr := ptr[prevp := ptr[p]];
      } else {
        NotLive(h, base, brk, p);
        a := TakeTail(p, n, l, i);
      }
      StillThere(l, i, n);
      if 1 < i { InLine(l, 0, i - 1); }
      h := Heap(Taken(l, i, n), h.live[a := n], h.arena);
      freep := prevp;
    }

    /** The block keeps its head; its last n units become a block of their own. */
    method TakeTail(p: nat, n: nat, ghost l: seq<Block>, ghost i: nat) returns (a: nat)
      requires Ordered(l) && Ring(ptr, size, l) && 0 < i < |l| && p == l[i].addr && 0 < n < l[i].size && p in size && size[p] == l[i].size
      modifies this`size
      ensures a == TakenBlock(l, i, n).addr && Ring(ptr, size, Taken(l, i, n))
      ensures size == old(size)[p := l[i].size - n][a := n]
    {
      a := p + 16 * (size[p] - n);
      TailIsNoHeader(l, i, a);
      RingShrunk(ptr, size, l, i, size[p] - n, a, n);
      size := size[p := size[p] - n][a := n];
    }

    /** malloc: next fit from freep around the ring, and, when nothing fits, once more after asking sbrk for
        memory. The block it returns was nobody's. It asks sbrk exactly when nothing fits, and then once;
        it fails exactly when that is refused. */
    method Malloc(nbytes: nat) returns (r: nat)
      requires Valid() && nbytes <= MAX_REQUEST
      modifies this`ptr, this`size, this`freep, this`brk, this`h, this`asks
      ensures Valid() && freep != 0
      ensures r == 0 ==> h == old(h) && !SomeFits(h.free, Units(nbytes))
      ensures Asked(old(h), h, old(brk), brk, old(asks), asks, Units(nbytes), r)
      ensures r != 0 ==> r >= 16 && r - 16 !in old(h).live && h.live == old(h).live[r - 16 := Units(nbytes)]
      ensures SomeFits(old(h).free, Units(nbytes)) ==> r != 0 && h.arena == old(h).arena
      ensures old(h).arena <= h.arena
    {
      var nunits := Units(nbytes);
      if freep == 0 {
        Init();
      }
      r := Search(nunits);
    }

    /** malloc's loop. The search has passed blocks f + 1 to f + o - 1 of the ring, counted from freep at f. */
    method Search(nunits: nat) returns (r: nat)
      requires Valid() && freep != 0 && nunits > 0 && SbrkArg(nunits) == 16 * nunits
      modifies this`ptr, this`size, this`freep, this`brk, this`h, this`asks
      ensures Valid() && freep != 0
      ensures r == 0 ==> h == old(h) && !SomeFits(h.free, nunits)
      ensures Asked(old(h), h, old(brk), brk, old(asks), asks, nunits, r)
      ensures r != 0 ==> r >= 16 && r - 16 !in old(h).live && h.live == old(h).live[r - 16 := nunits]
      ensures SomeFits(old(h).free, nunits) ==> r != 0 && h.arena == old(h).arena
      ensures old(h).arena <= h.arena
    {
      ghost var f: nat :| f < |h.free| && h.free[f].addr == freep;
      ghost var o, grown := 1, false;
      assert Node(ptr, size, h.free, f);
      assert StageIs(h, h, brk, brk, asks, asks, nunits, false);
      var prevp, p := freep, ptr[freep];
      while true
        invariant Valid() && freep != 0 && f < |h.free| && h.free[f].addr == freep && 1 <= o <= |h.free|
        invariant prevp == h.free[Around(|h.free|, f, o - 1)].addr && p == h.free[Around(|h.free|, f, o)].addr
        invariant Passed(h.free, f, o, nunits)
        invariant Stage(old(h), h, old(brk), brk, old(asks), asks, nunits, grown)
        decreases !grown, |h.free| - o
      {
        ghost var i := Around(|h.free|, f, o);
        assert Node(ptr, size, h.free, i);
        if size[p] >= nunits {
          r := TakeFound(prevp, p, nunits, f, o, old(h), old(brk), old(asks), grown);
          return;
        }
        if p == freep {
          WentAround(h.free, f, o, nunits);
          p := AskForMore(nunits, old(h), old(brk), old(asks), grown);
          if p == 0 {
            return 0;
          }
          grown := true;
          f :| f < |h.free| && h.free[f].addr == freep;
          o := 0;
          assert Node(ptr, size, h.free, f);
        }
        prevp := p;
        p := ptr[p];
        o := o + 1;
      }
    }

    /** The search has gone around, and nothing fits. */
    method AskForMore(nunits: nat, ghost was: Heap, ghost oldBrk: nat, ghost oldAsks: seq<Ask>, ghost grown: bool) returns (p: nat)
      requires Valid() && freep != 0 && nunits > 0 && SbrkArg(nunits) == 16 * nunits && !SomeFits(h.free, nunits)
      requires Stage(was, h, oldBrk, brk, oldAsks, asks, nunits, grown)
      modifies this`ptr, this`size, this`freep, this`brk, this`h, this`asks
      ensures Valid() && freep != 0 && !grown
      ensures p == 0 ==> h == was && !SomeFits(h.free, nunits) && Asked(was, h, oldBrk, brk, oldAsks, asks, nunits, 0)
      ensures p != 0 ==> p == freep && Stage(was, h, oldBrk, brk, oldAsks, asks, nunits, true)
    {
      NotYetGrown(was, h, oldBrk, brk, oldAsks, asks, nunits, grown);
      p := Morecore(nunits);
      NowGrown(was, h, oldBrk, brk, oldAsks, asks, nunits, p);
    }

    /** The search has come to a block that fits. */
    method TakeFound(prevp: nat, p: nat, nunits: nat, ghost f: nat, ghost o: nat, ghost was: Heap, ghost oldBrk: nat, ghost oldAsks: seq<Ask>, ghost grown: bool) returns (r: nat)
      requires Valid() && freep != 0 && f < |h.free| && 1 <= o <= |h.free| && 0 < nunits <= h.free[Around(|h.free|, f, o)].size
      requires prevp == h.free[Around(|h.free|, f, o - 1)].addr && p == h.free[Around(|h.free|, f, o)].addr
      requires Stage(was, h, oldBrk, brk, oldAsks, asks, nunits, grown)
      modifies this`ptr, this`size, this`freep, this`h
      ensures Valid() && freep != 0 && was.arena <= h.arena
      ensures r >= 16 && r - 16 !in was.live && h.live == was.live[r - 16 := nunits]
      ensures Asked(was, h, oldBrk, brk, oldAsks, asks, nunits, r)
      ensures SomeFits(was.free, nunits) ==> h.arena == was.arena
    {
      ghost var i := Around(|h.free|, f, o);
      assert h.free[0].size == 0;
      PredecessorOf(h.free, f, o);
      Found(was, h, oldBrk, brk, oldAsks, asks, nunits, grown, i);
      var a := Take(prevp, p, nunits, i);
      r := a + 16;
    }

    /** The first call makes a ring of base alone. */
    method Init()
      requires Valid() && freep == 0
      modifies this`ptr, this`size, this`freep
      ensures Valid() && freep != 0
    {
      freep := base;
      ptr := ptr[base := base];
      size := size[base := 0];
      assert h.free[0].addr == freep;
    }
  }

  /** The block t steps along the ring of n blocks from block f. */
  function Around(n: nat, f: nat, t: nat): (i: nat)
    requires f < n && t <= n
    ensures i < n
  {
    if f + t < n then f + t else f + t - n
  }

  predicate TooSmall(l: seq<Block>, f: nat, t: nat, n: nat) {
    f < |l| && t <= |l| ==> l[Around(|l|, f, t)].size < n
  }

  /** The search has passed the blocks 1 to o - 1 steps from block f. */
  ghost predicate Passed(l: seq<Block>, f: nat, o: nat, n: nat) {
    forall t: nat {:trigger TooSmall(l, f, t, n)} :: 1 <= t < o ==> TooSmall(l, f, t, n)
  }

  /** Nothing fitted, and now something does. */
  ghost predicate Grown(was: Heap, h: Heap, n: nat) {
    h.live == was.live && was.arena <= h.arena && !SomeFits(was.free, n) && SomeFits(h.free, n)
  }

  /** sbrk was asked once for what morecore asks for, and the arena has grown by exactly what it gave. */
  ghost predicate Extended(was: set<int>, arena: set<int>, oldBrk: nat, brk: nat, oldAsks: seq<Ask>, asks: seq<Ask>, nu: nat) {
    var n := MoreUnits(nu);
    oldBrk + 16 * n <= brk && asks == oldAsks + [Granted(16 * n, brk - 16 * n)] && arena == was + Span(brk - 16 * n, n)
  }

  /** When something fits, sbrk is not asked. Otherwise it is asked once: refused, there is no block; granted,
      there is one, and the arena has grown by exactly what sbrk gave. */
  ghost predicate Asked(was: Heap, h: Heap, oldBrk: nat, brk: nat, oldAsks: seq<Ask>, asks: seq<Ask>, n: nat, r: nat) {
    if SomeFits(was.free, n) then r != 0 && asks == oldAsks && brk == oldBrk && h.arena == was.arena
    else if r == 0 then asks == oldAsks + [Refused(16 * MoreUnits(n))] && brk == oldBrk
    else Extended(was.arena, h.arena, oldBrk, brk, oldAsks, asks, n)
  }

  /** Where the search stands, before sbrk is asked and after. */
  ghost predicate StageIs(was: Heap, h: Heap, oldBrk: nat, brk: nat, oldAsks: seq<Ask>, asks: seq<Ask>, n: nat, grown: bool) {
    if grown then Grown(was, h, n) && Extended(was.arena, h.arena, oldBrk, brk, oldAsks, asks, n)
    else h == was && brk == oldBrk && asks == oldAsks
  }

  /** The same as one fact, which the loop carries along. */
  ghost predicate Stage(was: Heap, h: Heap, oldBrk: nat, brk: nat, oldAsks: seq<Ask>, asks: seq<Ask>, n: nat, grown: bool) {
    StageIs(was, h, oldBrk, brk, oldAsks, asks, n, grown)
  }

  lemma NotYetGrown(was: Heap, h: Heap, oldBrk: nat, brk: nat, oldAsks: seq<Ask>, asks: seq<Ask>, n: nat, grown: bool)
    requires Stage(was, h, oldBrk, brk, oldAsks, asks, n, grown) && !SomeFits(h.free, n)
    ensures !grown && h == was && brk == oldBrk && asks == oldAsks
  {
  }

  lemma NowGrown(was: Heap, h: Heap, oldBrk: nat, brk: nat, oldAsks: seq<Ask>, asks: seq<Ask>, n: nat, p: nat)
    requires !SomeFits(was.free, n) && h.live == was.live
    requires if p == 0 then h == was && brk == oldBrk && asks == oldAsks + [Refused(16 * MoreUnits(n))]
             else was.arena < h.arena && SomeFits(h.free, n) && Extended(was.arena, h.arena, oldBrk, brk, oldAsks, asks, n)
    ensures if p == 0 then Asked(was, h, oldBrk, brk, oldAsks, asks, n, 0) else Stage(was, h, oldBrk, brk, oldAsks, asks, n, true)
  {
  }

  /** A block that fits has been found; taking it changes neither the arena nor what was asked. */
  lemma Found(was: Heap, h: Heap, oldBrk: nat, brk: nat, oldAsks: seq<Ask>, asks: seq<Ask>, n: nat, grown: bool, i: nat)
    requires Stage(was, h, oldBrk, brk, oldAsks, asks, n, grown) && i < |h.free| && h.free[i].size >= n
    ensures h.live == was.live && was.arena <= h.arena && (SomeFits(was.free, n) ==> h.arena == was.arena)
    ensures forall h': Heap, r: nat {:trigger Asked(was, h', oldBrk, brk, oldAsks, asks, n, r)} ::
              h'.arena == h.arena && r != 0 ==> Asked(was, h', oldBrk, brk, oldAsks, asks, n, r)
  {
  }

  lemma PredecessorOf(l: seq<Block>, f: nat, o: nat)
    requires f < |l| && 1 <= o <= |l| && l[0].size == 0 && l[Around(|l|, f, o)].size > 0
    ensures Around(|l|, f, o) > 0 && Around(|l|, f, o - 1) == Around(|l|, f, o) - 1
  {
  }

  /** Back at freep, the search has seen every block. */
  lemma WentAround(l: seq<Block>, f: nat, o: nat, n: nat)
    requires Ordered(l) && f < |l| && 1 <= o <= |l| && l[Around(|l|, f, o)].addr == l[f].addr && l[Around(|l|, f, o)].size < n
    requires Passed(l, f, o, n)
    ensures o == |l| && !SomeFits(l, n)
  {
    SameAddrSameBlock(l, Around(|l|, f, o), f);
    forall i | 0 <= i < |l| ensures l[i].size < n {
      assert i > f ==> i == Around(|l|, f, i - f) && TooSmall(l, f, i - f, n);
      assert i < f ==> i == Around(|l|, f, i + |l| - f) && TooSmall(l, f, i + |l| - f, n);
    }
  }

  lemma NotLive(h: Heap, base: nat, brk: nat, p: nat)
    requires Sound(h, base, brk) && exists i :: 0 <= i < |h.free| && h.free[i].addr == p
    ensures p !in h.live
  {
    if p in h.live { LiveIsAbove(h, base, brk, p); }
  }

  lemma FreeIsBelow(h: Heap, base: nat, brk: nat)
    requires Sound(h, base, brk)
    ensures forall i :: 0 <= i < |h.free| ==> h.free[i].addr < brk
    ensures forall x :: x >= brk ==> x !in h.arena
  {
    forall i | 0 <= i < |h.free| ensures h.free[i].addr < brk {
      if i > 0 {
        InLine(h.free, 0, i);
        assert Inside(h.free[i], h.free[i].addr) && Owned(h, h.free[i].addr);
      }
    }
  }

  lemma RingElsewhere(ptr: map<nat, nat>, size: map<nat, nat>, l: seq<Block>, a: nat, n: nat)
    requires Ring(ptr, size, l) && forall i :: 0 <= i < |l| ==> l[i].addr != a
    ensures Ring(ptr, size[a := n], l)
  {
    var size' := size[a := n];
    forall k: nat ensures Node(ptr, size', l, k) {
      assert Node(ptr, size, l, k);
    }
  }

  /** The tail of a block is not where any list header is. */
  lemma TailIsNoHeader(l: seq<Block>, i: nat, a: nat)
    requires Ordered(l) && i < |l| && l[i].addr < a < End(l[i])
    ensures forall k :: 0 <= k < |l| ==> l[k].addr != a
  {
    forall k | 0 <= k < |l| ensures l[k].addr != a {
      if k < i { InLine(l, k, i); } else if i < k { InLine(l, i, k); }
    }
  }

  lemma StillThere(l: seq<Block>, i: nat, n: nat)
    requires 0 < i < |l| && n <= l[i].size
    ensures exists k :: 0 <= k < |Taken(l, i, n)| && Taken(l, i, n)[k].addr == l[i - 1].addr
  {
    assert Taken(l, i, n)[i - 1].addr == l[i - 1].addr;
  }

  lemma NothingYet(base: nat, brk: nat)
    requires base + 16 <= brk
    ensures Sound(Heap([Block(base, 0)], map[], {}), base, brk)
  {
  }
}
