/** Allocating and freeing blocks, and reading, writing and truncating files.
    (projects/07-xv6plus/kernel/fs.c) */
module FileSystem {
  import opened FileBlocks

  /** What a file is once `s` has been written over it at `off`. */
  function Overwritten(c: seq<Byte>, off: nat, s: seq<Byte>): (r: seq<Byte>)
    requires off <= |c|
    ensures |r| == if off + |s| > |c| then off + |s| else |c|
  {
    c[..off] + s + if off + |s| < |c| then c[off + |s|..] else []
  }

  /** Reading back what has been written gives it; the rest of the file is as it was. */
  lemma ReadAfterWrite(c: seq<Byte>, off: nat, s: seq<Byte>)
    requires off <= |c|
    ensures Overwritten(c, off, s)[off..off + |s|] == s
    ensures Overwritten(c, off, s)[..off] == c[..off]
    ensures off + |s| <= |c| ==> Overwritten(c, off, s)[off + |s|..] == c[off + |s|..]
  {
  }

  /** Two writes in a row are one write. */
  lemma WriteAfterWrite(c: seq<Byte>, off: nat, a: seq<Byte>, b: seq<Byte>)
    requires off <= |c|
    ensures Overwritten(Overwritten(c, off, a), off + |a|, b) == Overwritten(c, off, a + b)
  {
  }

  lemma BothWritten(before: seq<Byte>, mid: seq<Byte>, now: seq<Byte>, off: nat, a: seq<Byte>, b: seq<Byte>)
    requires off <= |before| && mid == Overwritten(before, off, a[..|a|]) && now == Overwritten(mid, off + |a|, b[..|b|])
    ensures now == Overwritten(before, off, a + b)
  {
    assert a[..|a|] == a && b[..|b|] == b;
    WriteAfterWrite(before, off, a, b);
  }

  /** The blocks of the kilobytes lo to hi - 1 of a file. */
  function Touched(s: Fs, i: nat, lo: nat, hi: nat): set<nat>
    decreases hi
  {
    if lo >= hi then {} else Touched(s, i, lo, hi - 1) + {FileBlock(s, i, hi - 1)}
  }

  lemma {:induction false} TouchedCount(s: Fs, i: nat, lo: nat, hi: nat)
    requires lo <= hi
    ensures |Touched(s, i, lo, hi)| <= hi - lo
    decreases hi
  {
    if lo < hi {
      TouchedCount(s, i, lo, hi - 1);
    }
  }

  lemma {:induction false} TouchedStays(s: Fs, t: Fs, i: nat, lo: nat, hi: nat)
    requires SameFiles(s, t) && forall cn {:trigger FileBlock(s, i, cn)} :: lo <= cn < hi ==> FileBlock(s, i, cn) != 0
    ensures Touched(t, i, lo, hi) == Touched(s, i, lo, hi)
    decreases hi
  {
    if lo < hi {
      TouchedStays(s, t, i, lo, hi - 1);
      assert FileBlock(s, i, hi - 1) != 0;
      assert FileBlock(t, i, hi - 1) == FileBlock(s, i, hi - 1);
    }
  }

  function NonZero(b: nat): set<nat> {
    if b == 0 then {} else {b}
  }

  /** File i is its old self with `src` written over it from `start` on; all other files are the same. */
  ghost predicate Spliced(s: Fs, t: Fs, i: nat, start: nat, src: seq<Byte>)
    requires Shaped(s) && Shaped(t)
  {
    forall j: nat, x: nat {:trigger FileByte(t, j, x)} ::
      FileByte(t, j, x) == if j == i && start <= x < start + |src| then src[x - start] else FileByte(s, j, x)
  }

  /** The kilobytes written so far have blocks. */
  ghost predicate Covered(t: Fs, i: nat, start: nat, tot: nat) {
    forall cn: nat {:trigger FileBlock(t, i, cn)} :: start / 1024 <= cn && cn * 1024 < start + tot && tot > 0 ==> FileBlock(t, i, cn) != 0
  }

  lemma HolesKept(s: Fs, t: Fs)
    requires SameFiles(s, t) && NoHoles(s)
    ensures NoHoles(t)
  {
    forall i: nat, bn: nat ensures Backed(t, i, bn) {
      assert Backed(s, i, bn);
      assert FileBlock(s, i, bn) != 0 ==> FileBlock(t, i, bn) == FileBlock(s, i, bn);
    }
  }

  /** Allocation in the middle of a write changes nothing of what has been written. */
  lemma StillSpliced(s: Fs, t: Fs, u: Fs, i: nat, start: nat, src: seq<Byte>, tot: nat)
    requires Shaped(s) && Shaped(t) && SameFiles(t, u) && Spliced(s, t, i, start, src) && Covered(t, i, start, tot)
    ensures Spliced(s, u, i, start, src) && Covered(u, i, start, tot)
  {
    forall j: nat, x: nat ensures FileByte(u, j, x) == if j == i && start <= x < start + |src| then src[x - start] else FileByte(s, j, x) {
      assert FileByte(u, j, x) == FileByte(t, j, x);
    }
    forall cn: nat | start / 1024 <= cn && cn * 1024 < start + tot && tot > 0 ensures FileBlock(u, i, cn) != 0 {
      assert FileBlock(t, i, cn) != 0;
      assert FileBlock(u, i, cn) == FileBlock(t, i, cn);
    }
  }

  /** The next piece, up to the end of its kilobyte. */
  lemma SplicedMore(s: Fs, t: Fs, u: Fs, i: nat, start: nat, src: seq<Byte>, tot: nat, m: nat)
    requires Shaped(s) && Shaped(t) && Shaped(u) && tot + m <= |src| && (start + tot) % 1024 + m <= 1024
    requires Spliced(s, t, i, start, src[..tot])
    requires forall j: nat, x: nat {:trigger FileByte(u, j, x)} ::
      FileByte(u, j, x) == if j == i && x / 1024 == (start + tot) / 1024 && (start + tot) % 1024 <= x % 1024 < (start + tot) % 1024 + m
                           then src[tot..tot + m][x % 1024 - (start + tot) % 1024] else FileByte(t, j, x)
    ensures Spliced(s, u, i, start, src[..tot + m])
  {
    forall j: nat, x: nat ensures FileByte(u, j, x) == if j == i && start <= x < start + (tot + m) then src[..tot + m][x - start] else FileByte(s, j, x) {
      assert FileByte(t, j, x) == if j == i && start <= x < start + tot then src[..tot][x - start] else FileByte(s, j, x);
      assert start + tot <= x < start + tot + m <==> x / 1024 == (start + tot) / 1024 && (start + tot) % 1024 <= x % 1024 < (start + tot) % 1024 + m;
    }
  }

  lemma CoveredMore(t: Fs, u: Fs, i: nat, start: nat, tot: nat, m: nat)
    requires Covered(t, i, start, tot) && (start + tot) % 1024 + m <= 1024 && (forall r :: At(u, r) == At(t, r))
    requires FileBlock(t, i, (start + tot) / 1024) != 0
    ensures Covered(u, i, start, tot + m)
  {
    forall cn: nat | start / 1024 <= cn && cn * 1024 < start + tot + m && tot + m > 0 ensures FileBlock(u, i, cn) != 0 {
      assert FileBlock(u, i, cn) == FileBlock(t, i, cn);
      if tot > 0 && cn * 1024 < start + tot { assert FileBlock(t, i, cn) != 0; }
      else { assert cn == (start + tot) / 1024; }
    }
  }

  class FileSys {
    const nmeta: nat
    const bmapstart: nat
    const inodestart: nat
    var used: seq<bool>
    var data: seq<Content>
    var ptrs: seq<seq<nat>>
    var inodes: seq<Inode>
    ghost var owner: map<nat, Ref>
    ghost var logged: set<nat>  // the blocks given to log_write in this operation

    ghost function Now(): Fs
      reads this
    {
      Fs(nmeta, used, data, ptrs, inodes, owner)
    }

    /** Between operations: every block has one owner, and files have no holes. */
    ghost predicate Valid()
      reads this
    {
      Owned(Now(), {}) && NoHoles(Now())
    }

    ghost predicate Full()
      reads this
    {
      forall b :: 0 <= b < |used| ==> used[b]
    }

    /** The bitmap block that has the bit of block `b`, and the block that has inode i. */
    function BBlock(b: nat): nat {
      b / 8192 + bmapstart
    }

    function IBlock(i: nat): nat {
      i / 16 + inodestart
    }

    /** A new file system: no files yet. */
    constructor (nmeta: nat, bmapstart: nat, inodestart: nat, ninodes: nat)
      requires 0 < nmeta <= FSSIZE
      ensures Valid() && |inodes| == ninodes && logged == {}
      ensures forall i :: 0 <= i < ninodes ==> inodes[i].size == 0
    {
      this.nmeta, this.bmapstart, this.inodestart := nmeta, bmapstart, inodestart;
      used := seq(FSSIZE, b => b < nmeta);
      data := seq(FSSIZE, b => Zeros());
      ptrs := seq(FSSIZE, b => NoAddrs(NINDIRECT));
      inodes := seq(ninodes, i => EmptyInode());
      owner, logged := map[], {};
    }

    /** A new operation: nothing has been logged in it yet. */
    ghost method BeginOp()
      modifies this`logged
      ensures logged == {}
    {
      logged := {};
    }

    // ----- blocks -----

    /** balloc: the first free block, marked and zeroed; 0 if there is none. */
    method Balloc(ghost loose: set<nat>) returns (b: nat)
      requires Owned(Now(), loose)
      modifies this`used, this`data, this`ptrs, this`logged
      ensures b == 0 ==> Now() == old(Now()) && Full() && logged == old(logged)
      ensures b != 0 ==> b < FSSIZE && !old(used)[b] && Now() == Allocated(old(Now()), b) && logged == old(logged) + {BBlock(b), b}
      ensures b != 0 ==> forall c :: 0 <= c < b ==> old(used)[c]
      ensures b != 0 ==> Owned(Now(), loose + {b}) && SameFiles(old(Now()), Now())
    {
      assert GoodBlock(Now(), loose, 0);
      var start := 0;
      while start < FSSIZE
        invariant 0 <= start && Now() == old(Now()) && logged == old(logged)
        invariant forall c :: 0 <= c < start && c < FSSIZE ==> used[c]
        decreases FSSIZE - start
      {
        var bi := 0;
        while bi < 8192 && start + bi < FSSIZE
          invariant 0 <= bi <= 8192 && Now() == old(Now()) && logged == old(logged)
          invariant forall c :: 0 <= c < start + bi && c < FSSIZE ==> used[c]
          decreases 8192 - bi
        {
          b := start + bi;
          if !used[b] {
            AllocatedIsOwned(Now(), loose, b);
            AllocatedKeepsFiles(Now(), loose, b);
            used := used[b := true];
            BZero(b);
            logged := logged + {BBlock(b)};
            return;
          }
          bi := bi + 1;
        }
        start := start + 8192;
      }
      b := 0;
    }

    method BZero(b: nat)
      requires b < |data| && b < |ptrs|
      modifies this`data, this`ptrs, this`logged
      ensures data == old(data)[b := Zeros()] && ptrs == old(ptrs)[b := NoAddrs(NINDIRECT)] && logged == old(logged) + {b}
    {
      data := data[b := Zeros()];
      ptrs := ptrs[b := NoAddrs(NINDIRECT)];
      logged := logged + {b};
    }

    /** Puts a fresh block where a file or inode refers to it. */
    method Place(r: Ref, b: nat)
      requires Owned(Now(), {b}) && r.i < |inodes| && At(Now(), r) == 0
      requires b < FSSIZE && data[b] == Zeros() && ptrs[b] == NoAddrs(NINDIRECT)
      requires r.Direct? ==> r.k < NDIRECT
      requires r.Entry? ==> r.k < NINDIRECT && At(Now(), Indirect(r.i)) != 0
      modifies this`inodes, this`ptrs, this`owner, this`logged
      ensures Owned(Now(), {}) && SameFiles(old(Now()), Now())
      ensures forall q :: At(Now(), q) == if q == r then b else At(old(Now()), q)
      ensures logged == if r.Entry? then old(logged) + {At(Now(), Indirect(r.i))} else old(logged)
      ensures used == old(used)
    {
      ghost var s := Now();
      PlacedIsOwned(s, {b}, r, b);
      PlacedAt(s, {b}, r, b);
      PlacedKeepsFiles(s, {b}, r, b);
      assert {b} - {b} == {};
      match r {
        case Direct(i, k) => inodes := inodes[i := inodes[i].(addrs := inodes[i].addrs[k := b])];
        case Indirect(i) => inodes := inodes[i := inodes[i].(addrs := inodes[i].addrs[NDIRECT := b])];
        case Entry(i, k) =>
          var ind := inodes[i].addrs[NDIRECT];
          ptrs := ptrs[ind := WithAddr(ptrs[ind], k, b)];
          logged := logged + {ind};
      }
      owner := owner[b := r];
      assert Now() == Placed(s, r, b);
    }

    /** The three bitmap blocks. */
    function Bitmaps(): set<nat> {
      {bmapstart, bmapstart + 1, bmapstart + 2}
    }

    /** Allocates a block and puts it in its place; false if the disk is full. */
    method Extend(r: Ref) returns (b: nat)
      requires Owned(Now(), {}) && r.i < |inodes| && At(Now(), r) == 0
      requires r.Direct? ==> r.k < NDIRECT
      requires r.Entry? ==> r.k < NINDIRECT && At(Now(), Indirect(r.i)) != 0
      modifies this`used, this`data, this`ptrs, this`inodes, this`owner, this`logged
      ensures Owned(Now(), {}) && SameFiles(old(Now()), Now())
      ensures b == 0 ==> Now() == old(Now()) && Full() && logged == old(logged)
      ensures forall q :: At(Now(), q) == if q == r then b else At(old(Now()), q)
      ensures logged <= old(logged) + Bitmaps() + NonZero(b) + NonZero(At(Now(), Indirect(r.i)))
    {
      ghost var s := Now();
      b := Balloc({});
      if b != 0 {
        assert {} + {b} == {b};
        ghost var t := Now();
        AllocatedIsOwned(s, {}, b);
        Place(r, b);
        SameFilesThrough(s, t, Now());
      }
    }

    /** bmap: the block of the bn-th kilobyte, allocated if need be, and with it the indirect block; 0 if
        the disk is full. Files read the same as before. */
    method Bmap(i: nat, bn: nat) returns (addr: nat)
      requires Owned(Now(), {}) && i < |inodes| && bn < MAXFILE
      modifies this`used, this`data, this`ptrs, this`inodes, this`owner, this`logged
      ensures Owned(Now(), {}) && SameFiles(old(Now()), Now())
      ensures addr == FileBlock(Now(), i, bn) && (addr == 0 ==> Full())
      ensures FileBlock(old(Now()), i, bn) != 0 ==> Now() == old(Now()) && logged == old(logged)
      ensures At(old(Now()), Indirect(i)) != 0 ==> At(Now(), Indirect(i)) == At(old(Now()), Indirect(i))
      ensures logged <= old(logged) + Bitmaps() + NonZero(addr) + NonZero(At(Now(), Indirect(i)))
    {
      if bn < NDIRECT {
        addr := inodes[i].addrs[bn];
        if addr == 0 {
          addr := Extend(Direct(i, bn));
        }
        return;
      }
      var k := bn - NDIRECT;
      ghost var s := Now();
      var ind := inodes[i].addrs[NDIRECT];
      if ind == 0 {
        ind := Extend(Indirect(i));
        if ind == 0 {
          return 0;
        }
      }
      assert GoodRef(Now(), Indirect(i));
      addr := ptrs[ind][k];
      if addr == 0 {
        ghost var t := Now();
        addr := Extend(Entry(i, k));
        SameFilesThrough(s, t, Now());
      }
    }

    // ----- writing -----

    /** Where writei stands: `src[..tot]` is in the file, and `off` follows it. */
    ghost predicate Writing(s: Fs, i: nat, start: nat, src: seq<Byte>, tot: nat)
      reads this
    {
      && Owned(Now(), {}) && Shaped(s) && |inodes| == |s.inodes| && i < |inodes| && tot <= |src|
      && (forall j :: 0 <= j < |inodes| ==> inodes[j].size == s.inodes[j].size)
      && Spliced(s, Now(), i, start, src[..tot])
      && NoHoles(Now()) && Covered(Now(), i, start, tot)
    }

    /** Overwrites part of the block at hand. */
    method PutBytes(i: nat, bn: nat, addr: nat, at: nat, piece: seq<Byte>)
      requires Owned(Now(), {}) && addr == FileBlock(Now(), i, bn) != 0 && at + |piece| <= 1024
      modifies this`data, this`logged
      ensures Owned(Now(), {}) && (forall r :: At(Now(), r) == At(old(Now()), r)) && logged == old(logged) + {addr}
      ensures forall j: nat, x: nat {:trigger FileByte(Now(), j, x)} ::
                FileByte(Now(), j, x) == if j == i && x / 1024 == bn && at <= x % 1024 < at + |piece| then piece[x % 1024 - at] else FileByte(old(Now()), j, x)
    {
      ghost var s := Now();
      assert GoodRef(s, FileRef(i, bn));
      var c := data[addr][..at] + piece + data[addr][at + |piece|..];
      StoredIsOwned(s, {}, addr, c);
      forall j: nat, x: nat ensures FileByte(Stored(s, addr, c), j, x)
          == if j == i && x / 1024 == bn && at <= x % 1024 < at + |piece| then piece[x % 1024 - at] else FileByte(s, j, x) {
        StoredChangesOneKilobyte(s, i, bn, c, j, x);
      }
      data := data[addr := c];
      logged := logged + {addr};
      assert Now() == Stored(s, addr, c);
    }

    /** bmap in the middle of a write. */
    method NextBlock(i: nat, ghost s: Fs, ghost start: nat, ghost src: seq<Byte>, ghost tot: nat, off: nat) returns (addr: nat)
      requires Writing(s, i, start, src, tot) && off / 1024 < MAXFILE
      modifies this`used, this`data, this`ptrs, this`inodes, this`owner, this`logged
      ensures Writing(s, i, start, src, tot) && SameFiles(old(Now()), Now())
      ensures addr == FileBlock(Now(), i, off / 1024) && (addr == 0 ==> Full())
      ensures At(old(Now()), Indirect(i)) != 0 ==> At(Now(), Indirect(i)) == At(old(Now()), Indirect(i))
      ensures logged <= old(logged) + Bitmaps() + NonZero(addr) + NonZero(At(Now(), Indirect(i)))
    {
      ghost var t := Now();
      addr := Bmap(i, off / 1024);
      HolesKept(t, Now());
      StillSpliced(s, t, Now(), i, start, src[..tot], tot);
    }

    /** As much as goes into the block at hand. */
    method StorePiece(i: nat, ghost s: Fs, ghost start: nat, src: seq<Byte>, tot: nat, off: nat, addr: nat) returns (m: nat)
      requires Writing(s, i, start, src, tot) && tot < |src| && off == start + tot && addr == FileBlock(Now(), i, off / 1024) != 0
      modifies this`data, this`logged
      ensures 0 < m && tot + m <= |src| && Writing(s, i, start, src, tot + m)
      ensures (tot + m == |src| || (off + m) % 1024 == 0) && (off + m - 1) / 1024 == off / 1024
      ensures (forall r :: At(Now(), r) == At(old(Now()), r)) && logged == old(logged) + {addr}
    {
      ghost var u := Now();
      m := if |src| - tot < 1024 - off % 1024 then |src| - tot else 1024 - off % 1024;
      PutBytes(i, off / 1024, addr, off % 1024, src[tot..tot + m]);
      SplicedMore(s, u, Now(), i, start, src, tot, m);
      CoveredMore(u, Now(), i, start, tot, m);
      SameRefsSameHoles(u, Now());
    }

    /** The blocks that writing the kilobytes lo to hi - 1 of a file may give to log_write. */
    ghost function Footprint(i: nat, lo: nat, hi: nat): set<nat>
      reads this
    {
      Touched(Now(), i, lo, hi) + NonZero(At(Now(), Indirect(i))) + Bitmaps() + {IBlock(i)}
    }

    lemma FootprintCount(i: nat, lo: nat, hi: nat)
      requires lo <= hi
      ensures |Footprint(i, lo, hi)| <= hi - lo + 5
    {
      TouchedCount(Now(), i, lo, hi);
    }

    /** The footprint so far stays one while blocks are added. */
    lemma FootprintStays(s: Fs, i: nat, lo: nat, hi: nat)
      requires SameFiles(s, Now()) && (forall cn {:trigger FileBlock(s, i, cn)} :: lo <= cn < hi ==> FileBlock(s, i, cn) != 0)
      requires At(s, Indirect(i)) != 0 ==> At(Now(), Indirect(i)) == At(s, Indirect(i))
      ensures Touched(s, i, lo, hi) + NonZero(At(s, Indirect(i))) + Bitmaps() + {IBlock(i)} <= Footprint(i, lo, hi)
    {
      TouchedStays(s, Now(), i, lo, hi);
    }

    /** What has been logged since `lg` belongs to the write up to kilobyte `hi`, or is block `more`. */
    ghost predicate LoggedFor(lg: set<nat>, i: nat, lo: nat, hi: nat, more: nat)
      reads this
    {
      forall b {:trigger MayBeLogged(lg, i, lo, hi, more, b)} :: b in logged ==> MayBeLogged(lg, i, lo, hi, more, b)
    }

    ghost predicate MayBeLogged(lg: set<nat>, i: nat, lo: nat, hi: nat, more: nat, b: nat)
      reads this
    {
      b in lg || b in Footprint(i, lo, hi) || (b == more && b != 0)
    }

    /** How far the write has come: `hi` is the first kilobyte it has not reached, and it is done or at
        the start of a kilobyte. */
    ghost predicate Reached(start: nat, size: nat, tot: nat, off: nat, hi: nat) {
      Stands(start, size, tot, off, hi)
    }

    /** What `Reached` says; the loop carries it along as one fact, and the arithmetic is looked at only where a
        block is added. */
    ghost predicate Stands(start: nat, size: nat, tot: nat, off: nat, hi: nat) {
      && off == start + tot && tot <= size
      && hi == (if tot == 0 then start / 1024 else (off - 1) / 1024 + 1)
      && (tot == 0 || tot == size || off % 1024 == 0)
    }

    method FindBlock(i: nat, ghost s: Fs, ghost start: nat, ghost src: seq<Byte>, ghost tot: nat, off: nat, ghost lg: set<nat>, ghost hi: nat) returns (addr: nat)
      requires Writing(s, i, start, src, tot) && off / 1024 < MAXFILE && LoggedFor(lg, i, start / 1024, hi, 0) && Reached(start, |src|, tot, off, hi)
      modifies this`used, this`data, this`ptrs, this`inodes, this`owner, this`logged
      ensures Writing(s, i, start, src, tot)
      ensures addr == FileBlock(Now(), i, off / 1024) && (addr == 0 ==> Full())
      ensures LoggedFor(lg, i, start / 1024, hi, addr)
    {
      ghost var t, was := Now(), logged;
      LoggedIn(lg, i, start / 1024, hi, 0);
      addr := NextBlock(i, s, start, src, tot, off);
      FootprintStays(t, i, start / 1024, hi);
    }

    method FillBlock(i: nat, ghost s: Fs, ghost start: nat, src: seq<Byte>, tot: nat, off: nat, addr: nat, ghost lg: set<nat>, ghost hi: nat) returns (m: nat)
      requires Writing(s, i, start, src, tot) && tot < |src| && addr == FileBlock(Now(), i, off / 1024) != 0
      requires LoggedFor(lg, i, start / 1024, hi, addr) && Reached(start, |src|, tot, off, hi)
      modifies this`data, this`logged
      ensures 0 < m && tot + m <= |src| && Writing(s, i, start, src, tot + m)
      ensures LoggedFor(lg, i, start / 1024, off / 1024 + 1, 0) && Reached(start, |src|, tot + m, off + m, off / 1024 + 1)
    {
      ghost var u, was, foot := Now(), logged, Footprint(i, start / 1024, hi);
      LoggedIn(lg, i, start / 1024, hi, addr);
      ReachedHere(start, |src|, tot, off, hi);
      m := StorePiece(i, s, start, src, tot, off, addr);
      SameTouched(u, Now(), i, start / 1024, hi);
      ReachedNext(start, |src|, tot, off, hi, m);
      NowLogged(lg, i, start / 1024, hi, addr, was, foot);
    }

    lemma LoggedIn(lg: set<nat>, i: nat, lo: nat, hi: nat, more: nat)
      requires LoggedFor(lg, i, lo, hi, more)
      ensures forall b :: b in logged ==> b in lg || b in Footprint(i, lo, hi) || (b == more && b != 0)
    {
      forall b | b in logged ensures b in lg || b in Footprint(i, lo, hi) || (b == more && b != 0) {
        assert MayBeLogged(lg, i, lo, hi, more, b);
      }
    }

    /** The block at hand belongs to the footprint that goes one kilobyte further. */
    lemma NowLogged(lg: set<nat>, i: nat, lo: nat, hi: nat, addr: nat, was: set<nat>, foot: set<nat>)
      requires lo <= hi && addr == FileBlock(Now(), i, hi) && logged == was + {addr} && foot == Footprint(i, lo, hi)
      requires forall b :: b in was ==> b in lg || b in foot || b == addr
      ensures LoggedFor(lg, i, lo, hi + 1, 0)
    {
      forall b | b in logged ensures MayBeLogged(lg, i, lo, hi + 1, 0, b) { }
    }

    lemma ReachedHere(start: nat, size: nat, tot: nat, off: nat, hi: nat)
      requires Reached(start, size, tot, off, hi) && tot < size
      ensures hi == off / 1024
    {
    }

    lemma ReachedNext(start: nat, size: nat, tot: nat, off: nat, hi: nat, m: nat)
      requires Reached(start, size, tot, off, hi) && m > 0 && tot + m <= size
      requires (tot + m == size || (off + m) % 1024 == 0) && (off + m - 1) / 1024 == off / 1024
      ensures Reached(start, size, tot + m, off + m, off / 1024 + 1)
    {
    }

    /** One turn of writei's loop; 0 bytes mean that the disk is full. */
    method WriteTurn(i: nat, ghost s: Fs, ghost start: nat, src: seq<Byte>, tot: nat, off: nat, ghost lg: set<nat>, ghost hi: nat) returns (m: nat, ghost next: nat)
      requires Writing(s, i, start, src, tot) && tot < |src| && start + |src| <= MAXFILE * 1024
      requires LoggedFor(lg, i, start / 1024, hi, 0) && Reached(start, |src|, tot, off, hi)
      modifies this`used, this`data, this`ptrs, this`inodes, this`owner, this`logged
      ensures tot + m <= |src| && Writing(s, i, start, src, tot + m) && (m == 0 ==> Full())
      ensures LoggedFor(lg, i, start / 1024, next, 0) && Reached(start, |src|, tot + m, off + m, next)
    {
      next := hi;
      var addr := FindBlock(i, s, start, src, tot, off, lg, hi);
      if addr == 0 {
        return 0, next;
      }
      m := FillBlock(i, s, start, src, tot, off, addr, lg, hi);
      next := off / 1024 + 1;
    }

    /** writei's loop: all of `src`, or as much as the disk has room for. */
    method WriteLoop(i: nat, src: seq<Byte>, start: nat) returns (tot: nat, ghost hi: nat)
      requires Valid() && i < |inodes| && start + |src| <= MAXFILE * 1024
      modifies this`used, this`data, this`ptrs, this`inodes, this`owner, this`logged
      ensures tot <= |src| && Writing(old(Now()), i, start, src, tot) && (tot < |src| ==> Full())
      ensures Reached(start, |src|, tot, start + tot, hi) && LoggedFor(old(logged), i, start / 1024, hi, 0)
    {
      ghost var s := Now();
      var off := start;
      tot := 0;
      hi := start / 1024;
      NothingWritten(s, i, start, src);
      while tot < |src|
        invariant tot <= |src| && Writing(s, i, start, src, tot)
        invariant Reached(start, |src|, tot, off, hi) && LoggedFor(old(logged), i, start / 1024, hi, 0)
        decreases |src| - tot
      {
        var m;
        m, hi := WriteTurn(i, s, start, src, tot, off, old(logged), hi);
        if m == 0 {
          return;
        }
        tot, off := tot + m, off + m;
      }
    }

    /** iupdate, with the size the inode has in memory. */
    method IUpdate(i: nat, size: nat)
      requires Owned(Now(), {}) && i < |inodes|
      modifies this`inodes, this`logged
      ensures inodes == old(inodes)[i := old(inodes)[i].(size := size)] && logged == old(logged) + {IBlock(i)}
      ensures Owned(Now(), {}) && (forall r :: At(Now(), r) == At(old(Now()), r))
    {
      ghost var s := Now();
      inodes := inodes[i := inodes[i].(size := size)];
      logged := logged + {IBlock(i)};
      ResizedIsOwned(s, Now());
    }

    /** writei: the file is overwritten at `off` by `src`, or by as much of it as the disk has room for;
        every other file is as it was. -1 for an offset past the end or a file that would get too large,
        and then nothing happens. All the blocks logged belong to a footprint of at most one block a
        kilobyte and five more. */
    method Writei(i: nat, src: seq<Byte>, off: nat) returns (r: int, ghost hi: nat)
      requires Valid() && i < |inodes|
      modifies this`used, this`data, this`ptrs, this`inodes, this`owner, this`logged
      ensures Valid() && |inodes| == |old(inodes)|
      ensures r == -1 <==> off > old(inodes)[i].size || off + |src| > MAXFILE * 1024
      ensures r == -1 ==> Now() == old(Now()) && logged == old(logged)
      ensures r != -1 ==> 0 <= r <= |src| && Bytes(Now(), i) == Overwritten(Bytes(old(Now()), i), off, src[..r])
      ensures 0 <= r < |src| ==> Full()
      ensures forall j :: 0 <= j < |inodes| && j != i ==> Bytes(Now(), j) == Bytes(old(Now()), j)
      ensures r != -1 ==> LoggedFor(old(logged), i, off / 1024, hi, 0) && Reached(off, |src|, r, off + r, hi)
    {
      hi := off / 1024;
      if off > inodes[i].size || off + |src| > MAXFILE * 1024 {
        return -1, hi;
      }
      ghost var s, lg := Now(), logged;
      var tot;
      tot, hi := WriteLoop(i, src, off);
      r := tot;
      Finish(s, lg, i, src, off, tot, hi);
    }

    /** The end of writei: the size, if the file has grown, and the inode's block. */
    method Finish(ghost s: Fs, ghost lg: set<nat>, i: nat, ghost src: seq<Byte>, off: nat, tot: nat, ghost hi: nat)
      requires Writing(s, i, off, src, tot) && LoggedFor(lg, i, off / 1024, hi, 0)
      requires off <= s.inodes[i].size && off + |src| <= MAXFILE * 1024
      modifies this`inodes, this`logged
      ensures Valid() && |inodes| == |s.inodes| && Bytes(Now(), i) == Overwritten(Bytes(s, i), off, src[..tot])
      ensures forall j :: 0 <= j < |inodes| && j != i ==> Bytes(Now(), j) == Bytes(s, j)
      ensures LoggedFor(lg, i, off / 1024, hi, 0) && (Full() <==> old(Full()))
    {
      ghost var t := Now();
      var size := if off + tot > inodes[i].size then off + tot else inodes[i].size;
      forall b | b in logged ensures b in lg || b in Footprint(i, off / 1024, hi) {
        assert MayBeLogged(lg, i, off / 1024, hi, 0, b);
      }
      IUpdate(i, size);
      SameTouched(t, Now(), i, off / 1024, hi);
      ResizedKeepsFiles(s, t, Now(), i, off, src[..tot], size);
    }

    // ----- reading -----

    /** readi: the bytes of the file from `off` on, at most n of them. Nothing is allocated. */
    method Readi(i: nat, off: nat, n: nat) returns (r: seq<Byte>)
      requires Valid() && i < |inodes|
      modifies this`used, this`data, this`ptrs, this`inodes, this`owner, this`logged
      ensures Now() == old(Now()) && logged == old(logged)
      ensures r == if off > inodes[i].size || off + n >= 0x1_0000_0000 then []
                   else Bytes(Now(), i)[off..if off + n > inodes[i].size then inodes[i].size else off + n]
    {
      r := [];
      if off > inodes[i].size || off + n >= 0x1_0000_0000 {
        return;
      }
      r := ReadRange(i, off, if off + n > inodes[i].size then inodes[i].size else off + n);
    }

    /** readi's loop. */
    method ReadRange(i: nat, off: nat, end: nat) returns (r: seq<Byte>)
      requires Valid() && i < |inodes| && off <= end <= inodes[i].size
      modifies this`used, this`data, this`ptrs, this`inodes, this`owner, this`logged
      ensures Now() == old(Now()) && logged == old(logged)
      ensures r == Bytes(Now(), i)[off..end]
    {
      ghost var s, c := Now(), Bytes(Now(), i);
      var at := off;
      r := [];
      while at < end
        invariant Now() == s && logged == old(logged) && off <= at <= end && r == c[off..at]
        decreases end - at
      {
        var piece := ReadPiece(i, at, end);
        Longer(c, off, at, at + |piece|);
        r := r + piece;
        at := at + |piece|;
      }
    }

    /** One turn of readi's loop. */
    method ReadPiece(i: nat, at: nat, end: nat) returns (piece: seq<Byte>)
      requires Valid() && i < |inodes| && at < end <= inodes[i].size
      modifies this`used, this`data, this`ptrs, this`inodes, this`owner, this`logged
      ensures Now() == old(Now()) && logged == old(logged)
      ensures 0 < |piece| <= end - at && piece == Bytes(Now(), i)[at..at + |piece|]
    {
      var m := if end - at < 1024 - at % 1024 then end - at else 1024 - at % 1024;
      assert Backed(Now(), i, at / 1024) && GoodRef(Now(), FileRef(i, at / 1024));
      var addr := Bmap(i, at / 1024);
      SameKilobyte(Now(), i, at, m);
      piece := data[addr][at % 1024..at % 1024 + m];
    }

    /** writei, as far as the bytes of files go. */
    method WriteBytes(i: nat, src: seq<Byte>, off: nat) returns (r: int)
      requires Valid() && i < |inodes|
      modifies this`used, this`data, this`ptrs, this`inodes, this`owner, this`logged
      ensures Valid() && |inodes| == |old(inodes)|
      ensures r == -1 <==> off > old(inodes)[i].size || off + |src| > MAXFILE * 1024
      ensures r == -1 ==> Now() == old(Now())
      ensures r != -1 ==> 0 <= r <= |src| && Bytes(Now(), i) == Overwritten(Bytes(old(Now()), i), off, src[..r])
      ensures 0 <= r < |src| ==> Full()
      ensures forall j :: 0 <= j < |inodes| && j != i ==> Bytes(Now(), j) == Bytes(old(Now()), j)
    {
      ghost var hi;
      r, hi := Writei(i, src, off);
    }

    /** writei and then readi over the same range: what was written comes back. */
    method WriteThenRead(i: nat, src: seq<Byte>, off: nat) returns (r: int, back: seq<Byte>)
      requires Valid() && i < |inodes|
      modifies this`used, this`data, this`ptrs, this`inodes, this`owner, this`logged
      ensures Valid() && |inodes| == |old(inodes)|
      ensures r == -1 <==> off > old(inodes)[i].size || off + |src| > MAXFILE * 1024
      ensures r != -1 ==> 0 <= r <= |src| && back == src[..r] && (r < |src| ==> Full())
      ensures r == -1 ==> Now() == old(Now()) && back == []
    {
      r := WriteBytes(i, src, off);
      back := [];
      if r != -1 {
        ReadAfterWrite(Bytes(old(Now()), i), off, src[..r]);
        back := Readi(i, off, r);
      }
    }

    /** Two calls of writei, the second where the first left off: if both write all they are given, the
        file is as after one call with both sources. */
    method WriteTwice(i: nat, a: seq<Byte>, b: seq<Byte>, off: nat) returns (r: int, q: int)
      requires Valid() && i < |inodes|
      modifies this`used, this`data, this`ptrs, this`inodes, this`owner, this`logged
      ensures Valid() && |inodes| == |old(inodes)|
      ensures r == |a| && q == |b| ==> off <= old(inodes)[i].size && Bytes(Now(), i) == Overwritten(Bytes(old(Now()), i), off, a + b)
      ensures forall j :: 0 <= j < |inodes| && j != i ==> Bytes(Now(), j) == Bytes(old(Now()), j)
    {
      r := WriteBytes(i, a, off);
      ghost var mid := Bytes(Now(), i);
      q := WriteBytes(i, b, off + |a|);
      if r == |a| && q == |b| { BothWritten(Bytes(old(Now()), i), mid, Bytes(Now(), i), off, a, b); }
    }

    // ----- truncating -----

    /** bfree: clears the bit. The panic for freeing a free block needs the bit to be clear already. */
    method Bfree(b: nat)
      requires b < |used| && used[b]
      modifies this`used, this`logged
      ensures used == old(used)[b := false] && logged == old(logged) + {BBlock(b)}
    {
      used := used[b := false];
      logged := logged + {BBlock(b)};
    }

    /** itrunc has freed the inode's blocks of rank below n. */
    ghost predicate Truncating(s: Fs, i: nat, n: nat)
      requires i < |s.inodes|
      reads this
    {
      && Owned(s, {}) && |used| == |s.used| && data == s.data && ptrs == s.ptrs && owner == s.owner && nmeta == s.nmeta
      && |inodes| == |s.inodes| && (forall j :: 0 <= j < |inodes| && j != i ==> inodes[j] == s.inodes[j])
      && forall b: nat :: b < |used| ==> (used[b] <==> s.used[b] && !(OfInode(s, i, b) && Rank(s.owner[b]) < n))
    }

    /** Frees the block a place refers to, if any. */
    method FreeRef(ghost s: Fs, ghost i: nat, ghost r: Ref, b: nat)
      requires i < |s.inodes| && r.i == i && InOrder(r) && Truncating(s, i, Rank(r)) && b == At(s, r)
      modifies this`used, this`logged
      ensures Truncating(s, i, Rank(r) + 1)
      ensures logged <= old(logged) + Bitmaps()
    {
      NextRank(s, i, r);
      assert GoodBlock(s, {}, 0);
      ghost var was := used;
      if b != 0 {
        assert GoodRef(s, r) && GoodBlock(s, {}, b) && OfInode(s, i, b);
        Bfree(b);
      }
      forall c: nat | c < |used| ensures used[c] <==> s.used[c] && !(OfInode(s, i, c) && Rank(s.owner[c]) < Rank(r) + 1) {
        assert OfInode(s, i, c) ==> (Rank(s.owner[c]) < Rank(r) + 1 <==> Rank(s.owner[c]) < Rank(r) || c == b);
      }
    }

    /** itrunc: the file becomes empty, exactly its blocks become free, and every other file is as it was. */
    method Itrunc(i: nat)
      requires Valid() && i < |inodes|
      modifies this`used, this`inodes, this`owner, this`logged
      ensures Valid() && Truncated(old(Now()), Now(), i)
      ensures Bytes(Now(), i) == [] && forall j :: 0 <= j < |inodes| && j != i ==> Bytes(Now(), j) == Bytes(old(Now()), j)
      ensures logged <= old(logged) + Bitmaps() + {IBlock(i)}
    {
      ghost var s := Now();
      FreeDirect(i);
      var ind := inodes[i].addrs[NDIRECT];
      if ind != 0 {
        FreeIndirect(s, i, ind);
        inodes := inodes[i := inodes[i].(addrs := inodes[i].addrs[NDIRECT := 0])];
      } else {
        NoEntries(s, i);
      }
      AllRanksFreed(s, i);
      assert forall b: nat :: b < |used| ==> (used[b] <==> s.used[b] && !OfInode(s, i, b));
      Forget(s, i);
    }

    /** The last of itrunc: size 0, and the inode refers to nothing. */
    method Forget(ghost s: Fs, i: nat)
      requires i < |s.inodes| && Owned(s, {}) && NoHoles(s) && nmeta == s.nmeta && data == s.data && ptrs == s.ptrs && |used| == |s.used|
      requires |inodes| == |s.inodes| && inodes == s.inodes[i := inodes[i]] && inodes[i].addrs == NoAddrs(NDIRECT + 1)
      requires forall b: nat :: b < |used| ==> (used[b] <==> s.used[b] && !OfInode(s, i, b))
      modifies this`inodes, this`owner, this`logged
      ensures Valid() && Truncated(s, Now(), i) && logged == old(logged) + {IBlock(i)}
      ensures Bytes(Now(), i) == [] && forall j :: 0 <= j < |inodes| && j != i ==> Bytes(Now(), j) == Bytes(s, j)
    {
      inodes := inodes[i := inodes[i].(size := 0)];
      owner := map b | b in s.owner && s.owner[b].i != i :: s.owner[b];
      logged := logged + {IBlock(i)};
      TruncatedIsOwned(s, Now(), i);
      TruncatedKeepsFiles(s, Now(), i);
    }

    /** itrunc's first part: the direct blocks. */
    method FreeDirect(i: nat)
      requires Owned(Now(), {}) && i < |inodes|
      modifies this`used, this`inodes, this`logged
      ensures Truncating(old(Now()), i, NDIRECT) && |inodes[i].addrs| == NDIRECT + 1
      ensures forall m :: 0 <= m < NDIRECT ==> inodes[i].addrs[m] == 0
      ensures inodes[i].addrs[NDIRECT] == At(old(Now()), Indirect(i))
      ensures logged <= old(logged) + Bitmaps()
    {
      ghost var s := Now();
      for k := 0 to NDIRECT
        invariant Truncating(s, i, k) && |inodes[i].addrs| == NDIRECT + 1
        invariant forall m :: 0 <= m <= NDIRECT ==> inodes[i].addrs[m] == if m < k then 0 else s.inodes[i].addrs[m]
        invariant logged <= old(logged) + Bitmaps()
      {
        FreeRef(s, i, Direct(i, k), inodes[i].addrs[k]);
        inodes := inodes[i := inodes[i].(addrs := inodes[i].addrs[k := 0])];
      }
    }

    /** itrunc's second part: what the indirect block lists, then the indirect block. */
    method FreeIndirect(ghost s: Fs, i: nat, ind: nat)
      requires i < |s.inodes| && Truncating(s, i, NDIRECT) && ind == At(s, Indirect(i)) != 0
      modifies this`used, this`logged
      ensures Truncating(s, i, MAXFILE + 1)
      ensures logged <= old(logged) + Bitmaps()
    {
      assert GoodRef(s, Indirect(i));
      for k := 0 to NINDIRECT
        invariant Truncating(s, i, NDIRECT + k)
        invariant logged <= old(logged) + Bitmaps()
      {
        FreeRef(s, i, Entry(i, k), ptrs[ind][k]);
      }
      FreeRef(s, i, Indirect(i), ind);
    }
  }

  /** Without an indirect block, the direct blocks are all there is. */
  lemma NoEntries(s: Fs, i: nat)
    requires Owned(s, {}) && At(s, Indirect(i)) == 0
    ensures forall b: nat {:trigger OfInode(s, i, b)} :: OfInode(s, i, b) ==> Rank(s.owner[b]) < NDIRECT
  {
    forall b: nat | OfInode(s, i, b) ensures Rank(s.owner[b]) < NDIRECT {
      assert GoodBlock(s, {}, b);
    }
  }

  lemma AllRanksFreed(s: Fs, i: nat)
    requires Owned(s, {})
    ensures forall b: nat {:trigger OfInode(s, i, b)} :: OfInode(s, i, b) ==> Rank(s.owner[b]) <= MAXFILE
  {
    forall b: nat | OfInode(s, i, b) ensures Rank(s.owner[b]) <= MAXFILE {
      assert GoodBlock(s, {}, b);
    }
  }

  lemma TruncatedKeepsFiles(s: Fs, t: Fs, i: nat)
    requires Owned(s, {}) && NoHoles(s) && i < |s.inodes| && Truncated(s, t, i) && Owned(t, {}) && forall r :: At(t, r) == if r.i == i then 0 else At(s, r)
    ensures NoHoles(t) && Bytes(t, i) == []
    ensures forall j :: 0 <= j < |t.inodes| && j != i ==> Bytes(t, j) == Bytes(s, j)
  {
    forall j: nat, cn: nat ensures Backed(t, j, cn) {
      assert Backed(s, j, cn);
    }
    forall j, x: nat | 0 <= j < |t.inodes| && j != i ensures FileByte(t, j, x) == FileByte(s, j, x) {
    }
  }

  /** The order in which itrunc frees what an inode refers to. */
  function Rank(r: Ref): nat {
    match r
    case Direct(_, k) => k
    case Entry(_, k) => NDIRECT + k
    case Indirect(_) => MAXFILE
  }

  lemma NextRank(s: Fs, i: nat, r: Ref)
    requires Owned(s, {}) && InOrder(r) && r.i == i
    ensures forall b: nat {:trigger OfInode(s, i, b)} :: OfInode(s, i, b) ==>
      (Rank(s.owner[b]) < Rank(r) + 1 <==> Rank(s.owner[b]) < Rank(r) || b == At(s, r))
  {
    forall b: nat | OfInode(s, i, b) ensures Rank(s.owner[b]) < Rank(r) + 1 <==> Rank(s.owner[b]) < Rank(r) || b == At(s, r) {
      assert GoodBlock(s, {}, b) && GoodRef(s, r) && GoodRef(s, s.owner[b]) && InOrder(s.owner[b]);
      if Rank(s.owner[b]) == Rank(r) { RanksDiffer(s.owner[b], r); }
    }
  }

  predicate InOrder(r: Ref) {
    (r.Direct? ==> r.k < NDIRECT) && (r.Entry? ==> r.k < NINDIRECT)
  }

  lemma RanksDiffer(q: Ref, r: Ref)
    requires q.i == r.i && InOrder(q) && InOrder(r) && Rank(q) == Rank(r)
    ensures q == r
  {
  }

  /** Bytes of one kilobyte of a file lie together in its block. */
  lemma SameKilobyte(s: Fs, i: nat, at: nat, m: nat)
    requires Shaped(s) && i < |s.inodes| && at % 1024 + m <= 1024 && at + m <= s.inodes[i].size && 0 < FileBlock(s, i, at / 1024) < FSSIZE
    ensures s.data[FileBlock(s, i, at / 1024)][at % 1024..at % 1024 + m] == Bytes(s, i)[at..at + m]
  {
    var piece, part := s.data[FileBlock(s, i, at / 1024)][at % 1024..at % 1024 + m], Bytes(s, i)[at..at + m];
    forall k | 0 <= k < m ensures piece[k] == part[k] {
      assert (at + k) / 1024 == at / 1024 && (at + k) % 1024 == at % 1024 + k;
    }
  }

  lemma Longer(c: seq<Byte>, from: nat, at: nat, to: nat)
    requires from <= at <= to <= |c|
    ensures c[from..to] == c[from..at] + c[at..to]
  {
  }

  lemma ResizedIsOwned(s: Fs, t: Fs)
    requires Owned(s, {}) && t == s.(inodes := t.inodes) && |t.inodes| == |s.inodes|
    requires forall i :: 0 <= i < |s.inodes| ==> t.inodes[i].addrs == s.inodes[i].addrs
    ensures Owned(t, {}) && forall r :: At(t, r) == At(s, r)
  {
    forall r ensures At(t, r) == At(s, r) && GoodRef(t, r) {
      assert GoodRef(s, r);
    }
    forall b: nat ensures GoodBlock(t, {}, b) {
      assert GoodBlock(s, {}, b);
    }
  }

  /** The new size makes the file what it was, overwritten. */
  lemma ResizedKeepsFiles(s: Fs, t: Fs, u: Fs, i: nat, start: nat, src: seq<Byte>, size: nat)
    requires Shaped(s) && Owned(t, {}) && |t.inodes| == |s.inodes| && i < |s.inodes| && start <= s.inodes[i].size
    requires forall j :: 0 <= j < |s.inodes| ==> t.inodes[j].size == s.inodes[j].size
    requires Spliced(s, t, i, start, src) && NoHoles(t) && Covered(t, i, start, |src|) && start + |src| <= MAXFILE * 1024
    requires size == if start + |src| > s.inodes[i].size then start + |src| else s.inodes[i].size
    requires u == t.(inodes := t.inodes[i := t.inodes[i].(size := size)])
    ensures Owned(u, {}) && NoHoles(u)
    ensures Bytes(u, i) == Overwritten(Bytes(s, i), start, src)
    ensures forall j :: 0 <= j < |s.inodes| && j != i ==> Bytes(u, j) == Bytes(s, j)
  {
    ResizedIsOwned(t, u);
    forall j: nat, x: nat ensures FileByte(u, j, x) == if j == i && start <= x < start + |src| then src[x - start] else FileByte(s, j, x) {
      assert FileByte(u, j, x) == FileByte(t, j, x);
    }
    ResizedHasNoHoles(t, u, i, start, |src|, size);
  }

  lemma ResizedHasNoHoles(t: Fs, u: Fs, i: nat, start: nat, tot: nat, size: nat)
    requires i < |t.inodes| && NoHoles(t) && Covered(t, i, start, tot) && start <= t.inodes[i].size && start + tot <= MAXFILE * 1024
    requires size == if start + tot > t.inodes[i].size then start + tot else t.inodes[i].size
    requires u.inodes == t.inodes[i := t.inodes[i].(size := size)] && forall r :: At(u, r) == At(t, r)
    ensures NoHoles(u)
  {
    forall j: nat, cn: nat ensures Backed(u, j, cn) {
      assert Backed(t, j, cn);
      assert FileBlock(u, j, cn) == FileBlock(t, j, cn);
      if j == i && cn * 1024 < size && t.inodes[i].size <= cn * 1024 {
        assert FileBlock(t, i, cn) != 0;
      }
    }
  }

  lemma NothingWritten(s: Fs, i: nat, start: nat, src: seq<Byte>)
    requires Shaped(s)
    ensures Spliced(s, s, i, start, src[..0]) && Covered(s, i, start, 0)
  {
  }

  lemma {:induction false} SameTouched(s: Fs, t: Fs, i: nat, lo: nat, hi: nat)
    requires forall r :: At(t, r) == At(s, r)
    ensures Touched(t, i, lo, hi) == Touched(s, i, lo, hi)
    decreases hi
  {
    if lo < hi {
      SameTouched(s, t, i, lo, hi - 1);
    }
  }

  lemma SameRefsSameHoles(s: Fs, t: Fs)
    requires NoHoles(s) && t.inodes == s.inodes && forall r :: At(t, r) == At(s, r)
    ensures NoHoles(t)
  {
    forall i: nat, bn: nat ensures Backed(t, i, bn) {
      assert Backed(s, i, bn);
    }
  }
}
