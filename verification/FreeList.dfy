/** The user-space allocator's free list as a value: blocks in address order, none touching the next.
    Freeing inserts and joins, allocating takes a block or the tail of one. A header, the unit of
    allocation, has 16 bytes. (projects/07-xv6plus/user/umalloc.c) */
module FreeList {

  datatype Block = Block(addr: nat, size: nat)

  function End(b: Block): nat {
    b.addr + 16 * b.size
  }

  predicate Inside(b: Block, x: int) {
    b.addr <= x < End(b)
  }

  predicate Follows(l: seq<Block>, i: nat) {
    i + 1 < |l| ==> l[i].addr < l[i + 1].addr && End(l[i]) <= l[i + 1].addr && l[i + 1].size > 0
  }

  predicate Touches(l: seq<Block>, i: nat) {
    i + 1 < |l| && End(l[i]) == l[i + 1].addr
  }

  /** The list starts with `base`, which has size 0; each block ends before the next one starts. */
  ghost predicate Ordered(l: seq<Block>) {
    l != [] && l[0].size == 0 && forall i: nat {:trigger Follows(l, i)} :: Follows(l, i)
  }

  /** Moreover no two blocks touch. */
  ghost predicate Good(l: seq<Block>) {
    Ordered(l) && forall i: nat {:trigger Touches(l, i)} :: !Touches(l, i)
  }

  /** Address `x` lies in a block of the list. */
  ghost predicate Covered(l: seq<Block>, x: int) {
    exists i :: 0 <= i < |l| && Inside(l[i], x)
  }

  /** `b` fits between the blocks j and j + 1. */
  predicate Fits(l: seq<Block>, j: nat, b: Block) {
    && j < |l| && l[j].addr < b.addr && End(l[j]) <= b.addr && b.size > 0
    && (j + 1 < |l| ==> End(b) <= l[j + 1].addr)
  }

  lemma {:induction false} InOrder(l: seq<Block>, i: nat, j: nat)
    requires Good(l) && i < j < |l|
    ensures l[i].addr < l[j].addr && End(l[i]) < l[j].addr && l[j].size > 0
  {
    assert Follows(l, j - 1) && !Touches(l, j - 1);
    if i < j - 1 {
      InOrder(l, i, j - 1);
    }
  }

  // ----- freeing -----

  function Inserted(l: seq<Block>, j: nat, b: Block): seq<Block>
    requires j < |l|
  {
    l[..j + 1] + [b] + l[j + 1..]
  }

  /** Joins block i with the next one if they touch. */
  function Joined(l: seq<Block>, i: nat): seq<Block> {
    if Touches(l, i) then l[..i] + [Block(l[i].addr, l[i].size + l[i + 1].size)] + l[i + 2..] else l
  }

  /** free: put the block in its place, join it upwards, join it downwards. */
  function Freed(l: seq<Block>, j: nat, b: Block): seq<Block>
    requires j < |l|
  {
    Joined(Joined(Inserted(l, j, b), j + 1), j)
  }

  lemma InsertedIsOrdered(l: seq<Block>, j: nat, b: Block)
    requires Good(l) && Fits(l, j, b)
    ensures Ordered(Inserted(l, j, b))
    ensures forall k: nat :: Touches(Inserted(l, j, b), k) ==> k == j || k == j + 1
  {
    var r := Inserted(l, j, b);
    forall k: nat ensures Follows(r, k) && (Touches(r, k) ==> k == j || k == j + 1) {
      var m := if k > j then k - 1 else k;
      assert Follows(l, m) && !Touches(l, m);
    }
  }

  lemma JoinedIsOrdered(l: seq<Block>, i: nat)
    requires Ordered(l) && i > 0
    ensures Ordered(Joined(l, i))
    ensures forall k: nat :: Touches(Joined(l, i), k) ==> if k < i || !Touches(l, i) then Touches(l, k) else Touches(l, k + 1)
    ensures Touches(Joined(l, i), i) ==> Touches(l, i + 1)
  {
    var r := Joined(l, i);
    if Touches(l, i) {
      forall k: nat ensures Follows(r, k) && (Touches(r, k) ==> if k < i then Touches(l, k) else Touches(l, k + 1)) {
        assert Follows(l, k) && Follows(l, k + 1);
      }
    }
  }

  lemma FreedIsGood(l: seq<Block>, j: nat, b: Block)
    requires Good(l) && Fits(l, j, b)
    ensures Good(Freed(l, j, b))
  {
    var r := Inserted(l, j, b);
    InsertedIsOrdered(l, j, b);
    JoinedIsOrdered(r, j + 1);
    var up := Joined(r, j + 1);
    forall k: nat | Touches(up, k) ensures k == j {
      assert if k < j + 1 || !Touches(r, j + 1) then Touches(r, k) else Touches(r, k + 1);
      assert !Touches(r, k + 1) || k + 1 <= j + 1;
    }
    if j > 0 {
      JoinedIsOrdered(up, j);
      forall k: nat ensures !Touches(Freed(l, j, b), k) {
        assert !Touches(up, j + 1) && (k != j ==> !Touches(up, k)) && (k >= j ==> !Touches(up, k + 1));
      }
    } else {
      assert Follows(l, 0) && !Touches(up, 0);
    }
  }

  lemma InsertedCovers(l: seq<Block>, j: nat, b: Block, x: int)
    requires j < |l|
    ensures Covered(Inserted(l, j, b), x) <==> Covered(l, x) || Inside(b, x)
  {
    var r := Inserted(l, j, b);
    assert r[j + 1] == b;
    assert forall k :: 0 <= k < |l| ==> r[if k <= j then k else k + 1] == l[k];
    if Covered(r, x) {
      var k :| 0 <= k < |r| && Inside(r[k], x);
      assert k != j + 1 ==> r[k] == l[if k <= j then k else k - 1];
    }
    if Covered(l, x) {
      var k :| 0 <= k < |l| && Inside(l[k], x);
      assert Inside(r[if k <= j then k else k + 1], x);
    }
  }

  lemma JoinedAt(l: seq<Block>, i: nat, k: nat)
    requires Touches(l, i) && k + 1 < |l|
    ensures |Joined(l, i)| == |l| - 1
    ensures Joined(l, i)[k] == if k < i then l[k] else if k == i then Block(l[i].addr, l[i].size + l[i + 1].size) else l[k + 1]
  {
  }

  lemma JoinedInside(l: seq<Block>, i: nat, x: int)
    requires Touches(l, i)
    ensures Inside(Block(l[i].addr, l[i].size + l[i + 1].size), x) <==> Inside(l[i], x) || Inside(l[i + 1], x)
  {
  }

  lemma JoinedCoversNoLess(l: seq<Block>, i: nat, x: int)
    requires Touches(l, i) && Covered(l, x)
    ensures Covered(Joined(l, i), x)
  {
    var k :| 0 <= k < |l| && Inside(l[k], x);
    var m := if k <= i then k else k - 1;
    JoinedAt(l, i, m);
    JoinedInside(l, i, x);
    assert Inside(Joined(l, i)[m], x);
  }

  lemma JoinedCoversNoMore(l: seq<Block>, i: nat, x: int)
    requires Touches(l, i) && Covered(Joined(l, i), x)
    ensures Covered(l, x)
  {
    var k :| 0 <= k < |Joined(l, i)| && Inside(Joined(l, i)[k], x);
    JoinedAt(l, i, k);
    JoinedInside(l, i, x);
    assert Inside(l[k], x) || Inside(l[k + 1], x);
  }

  lemma JoinedCovers(l: seq<Block>, i: nat, x: int)
    ensures Covered(Joined(l, i), x) <==> Covered(l, x)
  {
    if Touches(l, i) {
      if Covered(l, x) { JoinedCoversNoLess(l, i, x); }
      if Covered(Joined(l, i), x) { JoinedCoversNoMore(l, i, x); }
    }
  }

  /** Freeing adds exactly the block's addresses to the free ones. */
  lemma FreedCovers(l: seq<Block>, j: nat, b: Block, x: int)
    requires j < |l|
    ensures Covered(Freed(l, j, b), x) <==> Covered(l, x) || Inside(b, x)
  {
    InsertedCovers(l, j, b, x);
    JoinedCovers(Inserted(l, j, b), j + 1, x);
    JoinedCovers(Joined(Inserted(l, j, b), j + 1), j, x);
  }

  /** The block that takes the freed one in is at least as large. */
  lemma FreedHolds(l: seq<Block>, j: nat, b: Block)
    requires j < |l|
    ensures exists i :: 0 <= i < |Freed(l, j, b)| && Freed(l, j, b)[i].size >= b.size
  {
    var r := Joined(Inserted(l, j, b), j + 1);
    assert r[j + 1].size >= b.size;
    assert Freed(l, j, b)[if Touches(r, j) then j else j + 1].size >= b.size;
  }

  // ----- allocating -----

  /** Block i gives up its last n units; if that is all of it, it leaves the list. */
  function Taken(l: seq<Block>, i: nat, n: nat): seq<Block>
    requires i < |l| && n <= l[i].size
  {
    if l[i].size == n then l[..i] + l[i + 1..] else l[i := Block(l[i].addr, l[i].size - n)]
  }

  function TakenBlock(l: seq<Block>, i: nat, n: nat): (b: Block)
    requires i < |l| && n <= l[i].size
    ensures End(b) == End(l[i])
  {
    Block(l[i].addr + 16 * (l[i].size - n), n)
  }

  lemma TakenIsGood(l: seq<Block>, i: nat, n: nat)
    requires Good(l) && 0 < i < |l| && 0 < n <= l[i].size
    ensures Good(Taken(l, i, n))
  {
    var r := Taken(l, i, n);
    forall k: nat ensures Follows(r, k) && !Touches(r, k) {
      assert Follows(l, k) && Follows(l, k + 1) && !Touches(l, k) && !Touches(l, k + 1);
    }
  }

  lemma RemovedCovers(l: seq<Block>, i: nat, x: int)
    requires Good(l) && i < |l|
    ensures Covered(l, x) <==> Covered(l[..i] + l[i + 1..], x) || Inside(l[i], x)
    ensures !(Covered(l[..i] + l[i + 1..], x) && Inside(l[i], x))
  {
    var r := l[..i] + l[i + 1..];
    assert forall k :: 0 <= k < |r| ==> r[k] == l[if k < i then k else k + 1];
    if Covered(l, x) && !Inside(l[i], x) {
      var k :| 0 <= k < |l| && Inside(l[k], x);
      assert r[if k < i then k else k - 1] == l[k];
    }
    if Covered(r, x) {
      var k :| 0 <= k < |r| && Inside(r[k], x);
      if k < i { InOrder(l, k, i); } else { InOrder(l, i, k + 1); }
    }
  }

  lemma CutCovers(l: seq<Block>, i: nat, c: Block, x: int)
    requires i < |l|
    ensures Covered(l[i := c], x) <==> Covered(l[..i] + l[i + 1..], x) || Inside(c, x)
  {
    var r, s := l[i := c], l[..i] + l[i + 1..];
    assert forall k :: 0 <= k < |s| ==> s[k] == r[if k < i then k else k + 1];
    assert r[i] == c;
    if Covered(r, x) && !Inside(c, x) {
      var k :| 0 <= k < |r| && Inside(r[k], x);
      assert s[if k < i then k else k - 1] == r[k];
    }
  }

  /** Allocating removes exactly the block's addresses from the free ones. */
  lemma TakenCovers(l: seq<Block>, i: nat, n: nat, x: int)
    requires Good(l) && 0 < i < |l| && 0 < n <= l[i].size
    ensures Covered(l, x) <==> Covered(Taken(l, i, n), x) || Inside(TakenBlock(l, i, n), x)
    ensures !(Covered(Taken(l, i, n), x) && Inside(TakenBlock(l, i, n), x))
  {
    RemovedCovers(l, i, x);
    CutCovers(l, i, Block(l[i].addr, l[i].size - n), x);
  }

  // ----- the list is determined by the memory it stands for -----

  /** Two such lists that start with the same base and cover the same addresses are the same list: what
      is free determines the free list, so no two blocks that could be one are ever left apart. */
  lemma {:induction false} SameCoverSameList(a: seq<Block>, b: seq<Block>)
    requires Good(a) && Good(b) && a[0] == b[0] && forall x :: Covered(a, x) <==> Covered(b, x)
    ensures a == b
    decreases |a|
  {
    if |a| == 1 || |b| == 1 {
      BaseAlone(a, b);
    } else {
      LastBlock(a, b);
      var n, m := |a| - 1, |b| - 1;
      WithoutLast(a);
      WithoutLast(b);
      forall x ensures Covered(a[..n], x) <==> Covered(b[..m], x) {
        assert Covered(a, x) <==> Covered(b, x);
      }
      SameCoverSameList(a[..n], b[..m]);
      assert a == a[..n] + [a[n]] && b == b[..m] + [b[m]];
    }
  }

  lemma BaseAlone(a: seq<Block>, b: seq<Block>)
    requires Good(a) && Good(b) && a[0] == b[0] && (|a| == 1 || |b| == 1) && forall x :: Covered(a, x) <==> Covered(b, x)
    ensures a == b
  {
    if |a| > 1 { TopIsCovered(a, 0); }
    if |b| > 1 { TopIsCovered(b, 0); }
  }

  lemma WithoutLast(l: seq<Block>)
    requires Good(l) && |l| > 1
    ensures Good(l[..|l| - 1])
    ensures forall x :: Covered(l[..|l| - 1], x) <==> Covered(l, x) && !Inside(l[|l| - 1], x)
  {
    var n := |l| - 1;
    var r := l[..n];
    forall k: nat ensures Follows(r, k) && !Touches(r, k) {
      assert Follows(l, k) && !Touches(l, k);
    }
    forall x ensures Covered(r, x) <==> Covered(l, x) && !Inside(l[n], x) {
      RemovedCovers(l, n, x);
      assert r == l[..n] + l[n + 1..];
    }
  }

  lemma LastBlock(a: seq<Block>, b: seq<Block>)
    requires Good(a) && Good(b) && |a| > 1 && |b| > 1 && forall x :: Covered(a, x) <==> Covered(b, x)
    ensures a[|a| - 1] == b[|b| - 1]
  {
    var p, q := a[|a| - 1], b[|b| - 1];
    TopIsCovered(a, End(q) - 1);
    TopIsCovered(b, End(p) - 1);
    if p.addr < q.addr {
      Gap(a, b);
    } else if q.addr < p.addr {
      Gap(b, a);
    }
  }

  /** The last address covered is the last of the last block. */
  lemma TopIsCovered(l: seq<Block>, x: int)
    requires Good(l) && |l| > 1
    ensures Covered(l, End(l[|l| - 1]) - 1)
    ensures Covered(l, x) ==> x < End(l[|l| - 1])
  {
    var n := |l| - 1;
    InOrder(l, 0, n);
    assert Inside(l[n], End(l[n]) - 1);
    if Covered(l, x) {
      var i :| 0 <= i < |l| && Inside(l[i], x);
      if i < n { InOrder(l, i, n); }
    }
  }

  /** A last block that reaches further down covers an address that the other list leaves out. */
  lemma Gap(a: seq<Block>, b: seq<Block>)
    requires Good(a) && Good(b) && |a| > 1 && |b| > 1
    requires End(a[|a| - 1]) == End(b[|b| - 1]) && a[|a| - 1].addr < b[|b| - 1].addr
    ensures exists x :: Covered(a, x) && !Covered(b, x)
  {
    var x := b[|b| - 1].addr - 1;
    assert Inside(a[|a| - 1], x) && Covered(a, x);
    forall i | 0 <= i < |b| ensures !Inside(b[i], x) {
      if i < |b| - 1 { InOrder(b, i, |b| - 1); }
    }
  }
}
