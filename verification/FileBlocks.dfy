/** Who owns which disk block: the free bitmap, the block addresses in inodes and in indirect blocks,
    and what a file's bytes are. (projects/07-xv6plus/kernel/fs.c, kernel/fs.h) */
module FileBlocks {

  // A block has 1024 bytes or 256 addresses; a bitmap block has 8192 bits.

  const NDIRECT := 12
  const NINDIRECT := 256
  const MAXFILE := 268       // NDIRECT + NINDIRECT
  const FSSIZE := 20000

  type Byte = x: int | 0 <= x < 256
  type Content = seq<Byte>  // of one block

  function Zeros(): (c: Content)
    ensures |c| == 1024 && forall x :: 0 <= x < 1024 ==> c[x] == 0
  {
    seq(1024, _ => 0)
  }

  function NoAddrs(n: nat): (a: seq<nat>)
    ensures |a| == n && forall k :: 0 <= k < n ==> a[k] == 0
  {
    seq(n, _ => 0)
  }

  /** An inode: twelve direct addresses, one indirect, and the size in bytes. */
  datatype Inode = Inode(addrs: seq<nat>, size: nat)

  function EmptyInode(): Inode {
    Inode(NoAddrs(NDIRECT + 1), 0)
  }

  /** A place that can hold the address of a block. */
  datatype Ref = Direct(i: nat, k: nat) | Indirect(i: nat) | Entry(i: nat, k: nat)

  /** `data` and `ptrs` are the two ways to look at a block. `owner` names the place that refers to a
      block. */
  datatype Fs = Fs(nmeta: nat, used: seq<bool>, data: seq<Content>, ptrs: seq<seq<nat>>, inodes: seq<Inode>, owner: map<nat, Ref>)

  function At(s: Fs, r: Ref): nat {
    match r
    case Direct(i, k) => if i < |s.inodes| && k < NDIRECT < |s.inodes[i].addrs| then s.inodes[i].addrs[k] else 0
    case Indirect(i) => if i < |s.inodes| && NDIRECT < |s.inodes[i].addrs| then s.inodes[i].addrs[NDIRECT] else 0
    case Entry(i, k) =>
      if i < |s.inodes| && NDIRECT < |s.inodes[i].addrs| then
        var ind := s.inodes[i].addrs[NDIRECT];
        if 0 < ind < |s.ptrs| && k < NINDIRECT && k < |s.ptrs[ind]| then s.ptrs[ind][k] else 0
      else 0
  }

  predicate Shaped(s: Fs) {
    && |s.used| == |s.data| == |s.ptrs| == FSSIZE && 0 < s.nmeta <= FSSIZE
    && (forall b :: 0 <= b < FSSIZE ==> |s.ptrs[b]| == NINDIRECT && |s.data[b]| == 1024)
    && (forall i :: 0 <= i < |s.inodes| ==> |s.inodes[i].addrs| == NDIRECT + 1)
  }

  /** What a place refers to is a data block, and nothing else refers to it. */
  predicate GoodRef(s: Fs, r: Ref) {
    At(s, r) != 0 ==> s.nmeta <= At(s, r) < FSSIZE && At(s, r) in s.owner && s.owner[At(s, r)] == r
  }

  /** The bit of a block is set exactly when the block is metadata, is referred to, or is `loose`: just
      allocated and not yet referred to. */
  predicate GoodBlock(s: Fs, loose: set<nat>, b: nat) {
    && (b < |s.used| ==> (s.used[b] <==> b < s.nmeta || b in s.owner || b in loose))
    && (b in s.owner ==> s.nmeta <= b < FSSIZE && At(s, s.owner[b]) == b && b !in loose)
    && (b in loose ==> s.nmeta <= b < FSSIZE)
  }

  ghost predicate Owned(s: Fs, loose: set<nat>) {
    && Shaped(s)
    && (forall r {:trigger GoodRef(s, r)} :: GoodRef(s, r))
    && (forall b: nat {:trigger GoodBlock(s, loose, b)} :: GoodBlock(s, loose, b))
  }

  // ----- files -----

  function FileRef(i: nat, bn: nat): Ref {
    if bn < NDIRECT then Direct(i, bn) else Entry(i, bn - NDIRECT)
  }

  /** The block that holds the bn-th kilobyte of a file, 0 if none does. */
  function FileBlock(s: Fs, i: nat, bn: nat): nat {
    At(s, FileRef(i, bn))
  }

  function FileByte(s: Fs, i: nat, x: nat): Byte
    requires Shaped(s)
  {
    var b := FileBlock(s, i, x / 1024);
    if 0 < b < FSSIZE then s.data[b][x % 1024] else 0
  }

  /** The bytes of a file. */
  function Bytes(s: Fs, i: nat): (c: seq<Byte>)
    requires Shaped(s) && i < |s.inodes|
    ensures |c| == s.inodes[i].size
  {
    seq(s.inodes[i].size, x requires 0 <= x < s.inodes[i].size => FileByte(s, i, x))
  }

  /** Every byte below a file's size has a block. */
  predicate Backed(s: Fs, i: nat, bn: nat) {
    i < |s.inodes| && bn * 1024 < s.inodes[i].size ==> bn < MAXFILE && FileBlock(s, i, bn) != 0
  }

  ghost predicate NoHoles(s: Fs) {
    forall i: nat, bn: nat {:trigger Backed(s, i, bn)} :: Backed(s, i, bn)
  }

  /** No block serves two kilobytes of files. */
  lemma BlocksAreDistinct(s: Fs, loose: set<nat>, i: nat, bn: nat, j: nat, cn: nat)
    requires Owned(s, loose) && FileBlock(s, i, bn) == FileBlock(s, j, cn) != 0
    ensures i == j && bn == cn
  {
    assert GoodRef(s, FileRef(i, bn)) && GoodRef(s, FileRef(j, cn));
  }

  // ----- steps -----

  /** balloc: mark the block used and zero it. */
  function Allocated(s: Fs, b: nat): Fs
    requires b < |s.used| && b < |s.data| && b < |s.ptrs|
  {
    s.(used := s.used[b := true], data := s.data[b := Zeros()], ptrs := s.ptrs[b := NoAddrs(NINDIRECT)])
  }

  lemma AllocatedIsOwned(s: Fs, loose: set<nat>, b: nat)
    requires Owned(s, loose) && b < FSSIZE && !s.used[b]
    ensures Owned(Allocated(s, b), loose + {b})
    ensures forall r :: At(Allocated(s, b), r) == At(s, r)
  {
    var t := Allocated(s, b);
    assert GoodBlock(s, loose, b);
    forall r ensures At(t, r) == At(s, r) {
      if r.Entry? { assert GoodRef(s, Indirect(r.i)); }
    }
    forall r ensures GoodRef(t, r) {
      assert GoodRef(s, r);
    }
    forall c: nat ensures GoodBlock(t, loose + {b}, c) {
      assert GoodBlock(s, loose, c);
    }
  }

  function WithAddr(a: seq<nat>, k: nat, b: nat): seq<nat>
    requires k < |a|
  {
    a[k := b]
  }

  /** A loose block gets its place. */
  function Placed(s: Fs, r: Ref, b: nat): Fs
    requires Shaped(s) && r.i < |s.inodes|
    requires r.Direct? ==> r.k < NDIRECT
    requires r.Entry? ==> r.k < NINDIRECT && 0 < At(s, Indirect(r.i)) < FSSIZE
  {
    if r.Entry? then
      s.(owner := s.owner[b := r], ptrs := s.ptrs[At(s, Indirect(r.i)) := WithAddr(s.ptrs[At(s, Indirect(r.i))], r.k, b)])
    else
      s.(owner := s.owner[b := r], inodes := s.inodes[r.i := Referring(s.inodes[r.i], if r.Direct? then r.k else NDIRECT, b)])
  }

  function Referring(ip: Inode, k: nat, b: nat): Inode
    requires k < |ip.addrs|
  {
    ip.(addrs := WithAddr(ip.addrs, k, b))
  }

  lemma PlacedAt(s: Fs, loose: set<nat>, r: Ref, b: nat)
    requires Owned(s, loose) && b in loose && r.i < |s.inodes| && At(s, r) == 0
    requires r.Direct? ==> r.k < NDIRECT
    requires r.Indirect? ==> b < |s.ptrs| && s.ptrs[b] == NoAddrs(NINDIRECT)
    requires r.Entry? ==> r.k < NINDIRECT && At(s, Indirect(r.i)) != 0
    ensures r.Entry? ==> 0 < At(s, Indirect(r.i)) < FSSIZE
    ensures forall q :: At(Placed(s, r, b), q) == if q == r then b else At(s, q)
  {
    assert GoodBlock(s, loose, b);
    assert GoodRef(s, Indirect(r.i));
    forall q ensures At(Placed(s, r, b), q) == if q == r then b else At(s, q) {
      if q.Entry? {
        assert GoodRef(s, Indirect(q.i));
      }
    }
  }

  lemma PlacedIsOwned(s: Fs, loose: set<nat>, r: Ref, b: nat)
    requires Owned(s, loose) && b in loose && r.i < |s.inodes| && At(s, r) == 0
    requires r.Direct? ==> r.k < NDIRECT
    requires r.Indirect? ==> b < |s.ptrs| && s.ptrs[b] == NoAddrs(NINDIRECT)
    requires r.Entry? ==> r.k < NINDIRECT && At(s, Indirect(r.i)) != 0
    ensures r.Entry? ==> 0 < At(s, Indirect(r.i)) < FSSIZE
    ensures Owned(Placed(s, r, b), loose - {b})
  {
    PlacedAt(s, loose, r, b);
    var t := Placed(s, r, b);
    assert GoodBlock(s, loose, b);
    forall q ensures GoodRef(t, q) {
      assert GoodRef(s, q);
    }
    forall c: nat ensures GoodBlock(t, loose - {b}, c) {
      assert GoodBlock(s, loose, c);
    }
  }

  /** The contents of a block change. */
  function Stored(s: Fs, b: nat, c: Content): Fs
    requires b < |s.data|
  {
    s.(data := s.data[b := c])
  }

  lemma StoredIsOwned(s: Fs, loose: set<nat>, b: nat, c: Content)
    requires Owned(s, loose) && b < FSSIZE && |c| == 1024
    ensures Owned(Stored(s, b, c), loose) && forall r :: At(Stored(s, b, c), r) == At(s, r)
  {
    var t := Stored(s, b, c);
    forall r ensures GoodRef(t, r) {
      assert GoodRef(s, r);
    }
    forall d: nat ensures GoodBlock(t, loose, d) {
      assert GoodBlock(s, loose, d);
    }
  }

  /** Every block of inode i. */
  predicate OfInode(s: Fs, i: nat, b: nat) {
    b in s.owner && s.owner[b].i == i
  }

  /** itrunc: all of them are freed, and the inode refers to nothing. */
  ghost predicate Truncated(s: Fs, t: Fs, i: nat)
    requires i < |s.inodes|
  {
    && t.nmeta == s.nmeta && t.data == s.data && t.ptrs == s.ptrs && |t.used| == |s.used|
    && t.inodes == s.inodes[i := EmptyInode()]
    && t.owner == (map b | b in s.owner && s.owner[b].i != i :: s.owner[b])
    && forall b: nat :: b < |s.used| ==> (t.used[b] <==> s.used[b] && !OfInode(s, i, b))
  }

  lemma TruncatedIsOwned(s: Fs, t: Fs, i: nat)
    requires Owned(s, {}) && i < |s.inodes| && Truncated(s, t, i)
    ensures Owned(t, {}) && forall r :: At(t, r) == if r.i == i then 0 else At(s, r)
  {
    forall r ensures At(t, r) == if r.i == i then 0 else At(s, r) {
    }
    forall r ensures GoodRef(t, r) {
      assert GoodRef(s, r);
    }
    forall b: nat ensures GoodBlock(t, {}, b) {
      assert GoodBlock(s, {}, b);
      assert b < |s.used| ==> (t.used[b] <==> s.used[b] && !OfInode(s, i, b));
    }
  }

  // ----- what the steps do to files -----

  /** Every file has the bytes it had, and every block of a file is where it was. */
  ghost predicate SameFiles(s: Fs, t: Fs) {
    && Shaped(s) && Shaped(t) && |t.inodes| == |s.inodes|
    && (forall j: nat, x: nat {:trigger FileByte(t, j, x)} :: FileByte(t, j, x) == FileByte(s, j, x))
    && (forall j: nat, cn: nat {:trigger FileBlock(t, j, cn)} :: FileBlock(s, j, cn) != 0 ==> FileBlock(t, j, cn) == FileBlock(s, j, cn))
    && (forall j :: 0 <= j < |s.inodes| ==> t.inodes[j].size == s.inodes[j].size)
  }

  lemma SameFilesThrough(s: Fs, t: Fs, u: Fs)
    requires SameFiles(s, t) && SameFiles(t, u)
    ensures SameFiles(s, u)
  {
    forall j: nat, x: nat ensures FileByte(u, j, x) == FileByte(s, j, x) {
      assert FileByte(u, j, x) == FileByte(t, j, x);
    }
    forall j: nat, cn: nat | FileBlock(s, j, cn) != 0 ensures FileBlock(u, j, cn) == FileBlock(s, j, cn) {
      assert FileBlock(t, j, cn) == FileBlock(s, j, cn);
    }
  }

  lemma AllocatedKeepsFiles(s: Fs, loose: set<nat>, b: nat)
    requires Owned(s, loose) && b < FSSIZE && !s.used[b]
    ensures SameFiles(s, Allocated(s, b))
  {
    var t := Allocated(s, b);
    AllocatedIsOwned(s, loose, b);
    forall j: nat, x: nat ensures FileByte(t, j, x) == FileByte(s, j, x) {
      assert GoodRef(s, FileRef(j, x / 1024)) && GoodBlock(s, loose, b);
    }
  }

  /** A fresh block in a place where there was none reads as before: zero. */
  lemma PlacedKeepsFiles(s: Fs, loose: set<nat>, r: Ref, b: nat)
    requires Owned(s, loose) && b in loose && r.i < |s.inodes| && At(s, r) == 0
    requires b < FSSIZE && s.data[b] == Zeros() && s.ptrs[b] == NoAddrs(NINDIRECT)
    requires r.Direct? ==> r.k < NDIRECT
    requires r.Entry? ==> r.k < NINDIRECT && At(s, Indirect(r.i)) != 0
    ensures r.Entry? ==> 0 < At(s, Indirect(r.i)) < FSSIZE
    ensures SameFiles(s, Placed(s, r, b))
  {
    PlacedIsOwned(s, loose, r, b);
    PlacedAt(s, loose, r, b);
    var t := Placed(s, r, b);
    forall j: nat, x: nat ensures FileByte(t, j, x) == FileByte(s, j, x) {
      assert At(t, FileRef(j, x / 1024)) == if FileRef(j, x / 1024) == r then b else At(s, FileRef(j, x / 1024));
    }
    forall j: nat, cn: nat | FileBlock(s, j, cn) != 0 ensures FileBlock(t, j, cn) == FileBlock(s, j, cn) {
      assert At(t, FileRef(j, cn)) == if FileRef(j, cn) == r then b else At(s, FileRef(j, cn));
    }
  }

  /** Writing one block of a file changes that kilobyte of that file and nothing else. */
  lemma StoredChangesOneKilobyte(s: Fs, i: nat, bn: nat, c: Content, j: nat, x: nat)
    requires Owned(s, {}) && FileBlock(s, i, bn) != 0 && |c| == 1024
    ensures FileBlock(s, i, bn) < FSSIZE && Shaped(Stored(s, FileBlock(s, i, bn), c))
    ensures FileByte(Stored(s, FileBlock(s, i, bn), c), j, x)
         == if j == i && x / 1024 == bn then c[x % 1024] else FileByte(s, j, x)
  {
    var b := FileBlock(s, i, bn);
    assert GoodRef(s, FileRef(i, bn));
    StoredIsOwned(s, {}, b, c);
    if FileBlock(s, j, x / 1024) == b {
      BlocksAreDistinct(s, {}, i, bn, j, x / 1024);
    }
  }
}
