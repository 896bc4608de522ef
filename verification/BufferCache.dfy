/** The buffer cache: a fixed array of buffers, a list of them by how recently they were used, and
    the rule the log depends on: a buffer that anyone holds or pins is never recycled.
    (projects/07-xv6plus/kernel/bio.c) */
module BufferCache {
  import opened LogImage

  const ROOTDEV := 1

  /** The disk, together with every write it has taken. */
  class Disk {
    var blocks: Image
    ghost var writes: seq<Write>

    constructor (img: Image)
      ensures blocks == img && writes == []
    {
      blocks, writes := img, [];
    }

    method Read(b: nat) returns (d: Data)
      requires b < |blocks|
      ensures d == blocks[b]
    {
      d := blocks[b];
    }

    method Write(b: nat, d: Data)
      requires b < |blocks|
      modifies this
      ensures blocks == old(blocks)[b := d] && writes == old(writes) + [LogImage.Write(b, d)]
    {
      blocks := blocks[b := d];
      writes := writes + [LogImage.Write(b, d)];
    }
  }

  /** One buffer; `dev` is 0 until the buffer is first used. */
  datatype Buf = Buf(dev: nat, blockno: nat, valid: bool, refcnt: nat, data: Data)

  const BLANK := Buf(0, 0, false, 0, seq(WORDS, _ => 0))

  /** The buffers and the disk. `index` says which buffer has a block, `dirty` what has been put in a
      block and is not on the disk yet. */
  datatype State = State(bufs: seq<Buf>, index: map<nat, nat>, dirty: map<nat, Data>, blocks: Image)

  /** What reading a block must give: the contents last put there. */
  function Content(s: State, b: nat): Data
    requires b in s.dirty || b < |s.blocks|
  {
    if b in s.dirty then s.dirty[b] else s.blocks[b]
  }

  /** How many holders and pins a block has. */
  function Refs(s: State, b: nat): nat {
    if b in s.index && s.index[b] < |s.bufs| then s.bufs[s.index[b]].refcnt else 0
  }

  function FreeSet(bufs: seq<Buf>): set<nat> {
    set i | 0 <= i < |bufs| && bufs[i].refcnt == 0
  }

  /** Buffer `i` has block `b`, and someone holds it. */
  predicate Holds(s: State, i: nat, b: nat) {
    i < |s.bufs| && b in s.index && s.index[b] == i && s.bufs[i].refcnt > 0
  }

  /** `refs` counts the holders and pins of every block, `free` the buffers nobody holds. */
  ghost predicate Counts(s: State, refs: multiset<nat>, free: nat) {
    free == |FreeSet(s.bufs)| && forall b {:trigger Refs(s, b)} :: refs[b] == Refs(s, b)
  }

  /** The buffer is in use and the index knows it, with the right contents; or it never was used. */
  predicate GoodBuf(s: State, i: nat)
    requires i < |s.bufs|
  {
    var f := s.bufs[i];
    if f.dev == ROOTDEV then
      && f.blockno in s.index && s.index[f.blockno] == i && f.blockno < |s.blocks|
      && (f.refcnt > 0 ==> f.valid)
      && (f.valid ==> f.data == Content(s, f.blockno))
    else
      f.dev == 0 && f.refcnt == 0
  }

  predicate GoodIndex(s: State, b: nat) {
    b in s.index ==> s.index[b] < |s.bufs| && s.bufs[s.index[b]].dev == ROOTDEV && s.bufs[s.index[b]].blockno == b
  }

  predicate GoodDirty(s: State, b: nat) {
    b in s.dirty ==> b in s.index && s.index[b] < |s.bufs| && s.bufs[s.index[b]].refcnt > 0
  }

  /** A block is in at most one buffer, a valid buffer has what was last put in its block, and what
      the disk does not have yet is in buffers that someone holds. */
  ghost predicate Good(s: State) {
    && (forall i {:trigger GoodBuf(s, i)} :: 0 <= i < |s.bufs| ==> GoodBuf(s, i))
    && (forall b {:trigger GoodIndex(s, b)} :: GoodIndex(s, b))
    && (forall b {:trigger GoodDirty(s, b)} :: GoodDirty(s, b))
  }

  lemma Spelt(s: State)
    requires Good(s)
    ensures forall i :: 0 <= i < |s.bufs| ==> GoodBuf(s, i)
    ensures forall b :: b in s.index ==> s.index[b] < |s.bufs| && s.bufs[s.index[b]].dev == ROOTDEV && s.bufs[s.index[b]].blockno == b
    ensures forall b :: b in s.dirty ==> b in s.index && s.bufs[s.index[b]].refcnt > 0
  {
    forall b | b in s.index ensures s.index[b] < |s.bufs| && s.bufs[s.index[b]].dev == ROOTDEV && s.bufs[s.index[b]].blockno == b {
      assert GoodIndex(s, b);
    }
    forall b | b in s.dirty ensures b in s.index && s.bufs[s.index[b]].refcnt > 0 {
      assert GoodIndex(s, b) && GoodDirty(s, b);
    }
  }

  // ----- what the operations do to the state -----

  /** bget and bread: block `b` is in buffer `i`, read if need be, and has one more holder. */
  function Acquired(s: State, b: nat, i: nat): State
    requires i < |s.bufs| && (b in s.dirty || b < |s.blocks|)
  {
    if b in s.index then
      s.(bufs := s.bufs[i := s.bufs[i].(refcnt := s.bufs[i].refcnt + 1, valid := true, data := Content(s, b))])
    else
      s.(bufs := s.bufs[i := Buf(ROOTDEV, b, true, 1, Content(s, b))],
         index := (if s.bufs[i].dev == ROOTDEV then s.index - {s.bufs[i].blockno} else s.index)[b := i])
  }

  /** A pin or a release. */
  function Recounted(s: State, i: nat, refcnt: nat): State
    requires i < |s.bufs|
  {
    s.(bufs := s.bufs[i := s.bufs[i].(refcnt := refcnt)])
  }

  /** The holder changes the contents. */
  function Changed(s: State, i: nat, d: Data): State
    requires i < |s.bufs|
  {
    s.(bufs := s.bufs[i := s.bufs[i].(data := d)], dirty := s.dirty[s.bufs[i].blockno := d])
  }

  /** bwrite. */
  function Flushed(s: State, i: nat): State
    requires i < |s.bufs| && s.bufs[i].blockno < |s.blocks|
  {
    s.(blocks := s.blocks[s.bufs[i].blockno := s.bufs[i].data], dirty := s.dirty - {s.bufs[i].blockno})
  }

  /** The buffer that has the block, or an unused one if none has. */
  predicate Eligible(s: State, b: nat, i: nat) {
    i < |s.bufs| && if b in s.index then i == s.index[b] else s.bufs[i].refcnt == 0
  }

  lemma AcquiredIsGood(s: State, b: nat, i: nat)
    requires Good(s) && b < |s.blocks| && Eligible(s, b, i)
    ensures Good(Acquired(s, b, i))
  {
    Spelt(s);
    assert GoodBuf(s, i);
    var t := Acquired(s, b, i);
    forall j | 0 <= j < |t.bufs| ensures GoodBuf(t, j) {
      assert GoodBuf(s, j);
    }
  }

  lemma AcquiredCounts(s: State, b: nat, i: nat, refs: multiset<nat>, free: nat)
    requires Good(s) && b < |s.blocks| && Eligible(s, b, i) && Counts(s, refs, free)
    ensures b in refs || free > 0
    ensures Counts(Acquired(s, b, i), refs + multiset{b}, free - if b in refs then 0 else 1)
    ensures forall c :: c in refs ==> c in s.index && c in Acquired(s, b, i).index && Acquired(s, b, i).index[c] == s.index[c]
  {
    Spelt(s);
    assert GoodBuf(s, i);
    var t := Acquired(s, b, i);
    assert refs[b] == Refs(s, b);
    assert b !in refs ==> i in FreeSet(s.bufs);
    assert FreeSet(t.bufs) == FreeSet(s.bufs) - {i};
    forall c ensures (refs + multiset{b})[c] == Refs(t, c) {
      assert refs[c] == Refs(s, c);
    }
    forall c | c in refs ensures c in s.index && c in t.index && t.index[c] == s.index[c] {
      assert refs[c] == Refs(s, c);
    }
  }

  lemma RecountedKeeps(s: State, i: nat, b: nat, refcnt: nat)
    requires Good(s) && Holds(s, i, b) && (b in s.dirty ==> refcnt > 0)
    ensures Good(Recounted(s, i, refcnt))
  {
    Spelt(s);
    assert GoodBuf(s, i);
    var t := Recounted(s, i, refcnt);
    forall j | 0 <= j < |t.bufs| ensures GoodBuf(t, j) {
      assert GoodBuf(s, j);
    }
  }

  lemma RecountedCounts(s: State, i: nat, b: nat, refcnt: nat, refs: multiset<nat>, free: nat)
    requires Good(s) && Holds(s, i, b) && Counts(s, refs, free)
    ensures Counts(Recounted(s, i, refcnt), refs[b := refcnt], free + if refcnt == 0 then 1 else 0)
    ensures refs[b] == s.bufs[i].refcnt
  {
    Spelt(s);
    assert GoodBuf(s, i);
    var t := Recounted(s, i, refcnt);
    assert refcnt == 0 ==> FreeSet(t.bufs) == FreeSet(s.bufs) + {i};
    assert refcnt > 0 ==> FreeSet(t.bufs) == FreeSet(s.bufs);
    assert refs[b] == Refs(s, b);
    forall c ensures refs[b := refcnt][c] == Refs(t, c) {
      assert refs[c] == Refs(s, c);
    }
  }

  lemma ChangedKeeps(s: State, i: nat, b: nat, d: Data, refs: multiset<nat>, free: nat)
    requires Good(s) && Holds(s, i, b) && Counts(s, refs, free)
    ensures Good(Changed(s, i, d)) && Counts(Changed(s, i, d), refs, free) && s.bufs[i].blockno == b
  {
    Spelt(s);
    assert GoodBuf(s, i);
    var t := Changed(s, i, d);
    assert FreeSet(t.bufs) == FreeSet(s.bufs);
    forall c ensures Refs(t, c) == Refs(s, c) {}
    forall c ensures refs[c] == Refs(t, c) {
      assert refs[c] == Refs(s, c);
    }
    forall j | 0 <= j < |t.bufs| ensures GoodBuf(t, j) {
      assert GoodBuf(s, j);
    }
  }

  lemma FlushedKeeps(s: State, i: nat, b: nat, refs: multiset<nat>, free: nat)
    requires Good(s) && Holds(s, i, b) && Counts(s, refs, free)
    ensures s.bufs[i].blockno == b && b < |s.blocks| && s.bufs[i].data == Content(s, b)
    ensures Good(Flushed(s, i)) && Counts(Flushed(s, i), refs, free)
  {
    Spelt(s);
    assert GoodBuf(s, i);
    var t := Flushed(s, i);
    forall c ensures Refs(t, c) == Refs(s, c) {}
    forall c ensures refs[c] == Refs(t, c) {
      assert refs[c] == Refs(s, c);
    }
    forall j | 0 <= j < |t.bufs| ensures GoodBuf(t, j) {
      assert GoodBuf(s, j);
    }
  }

  /** A set of buffers and the set of their blocks are equally many. */
  lemma {:induction false} AsManyBuffersAsBlocks(s: State, used: set<nat>, held: set<nat>)
    requires forall i :: i in used ==> i < |s.bufs| && s.bufs[i].blockno in held
    requires forall b :: b in held ==> b in s.index && s.index[b] in used && s.bufs[s.index[b]].blockno == b
    requires forall i :: i in used ==> s.bufs[i].blockno in s.index && s.index[s.bufs[i].blockno] == i
    ensures |used| == |held|
    decreases |held|
  {
    if held == {} {
      assert used == {};
    } else {
      var b :| b in held;
      AsManyBuffersAsBlocks(s, used - {s.index[b]}, held - {b});
    }
  }

  function UsedSet(bufs: seq<Buf>): set<nat> {
    set i | 0 <= i < |bufs| && bufs[i].refcnt > 0
  }

  function Below(n: nat): set<nat> {
    if n == 0 then {} else Below(n - 1) + {n - 1}
  }

  lemma {:induction false} BelowCounts(n: nat)
    ensures |Below(n)| == n && forall i: nat :: i in Below(n) <==> i < n
  {
    if n > 0 {
      BelowCounts(n - 1);
    }
  }

  lemma FreeOrUsed(bufs: seq<Buf>)
    ensures |FreeSet(bufs)| + |UsedSet(bufs)| == |bufs|
  {
    BelowCounts(|bufs|);
    assert FreeSet(bufs) + UsedSet(bufs) == Below(|bufs|);
  }

  /** Every buffer is free or has a held block: bget runs out of buffers exactly when as many blocks are
      held or pinned as there are buffers. */
  lemma FreeAndHeld(s: State, refs: multiset<nat>, free: nat, held: set<nat>)
    requires Good(s) && Counts(s, refs, free) && forall b :: b in held <==> b in refs
    ensures free + |held| == |s.bufs|
  {
    Spelt(s);
    var used := UsedSet(s.bufs);
    forall b | b in held ensures b in s.index && s.index[b] in used && s.bufs[s.index[b]].blockno == b {
      assert refs[b] == Refs(s, b);
    }
    forall i | i in used ensures i < |s.bufs| && s.bufs[i].blockno in held && s.bufs[i].blockno in s.index && s.index[s.bufs[i].blockno] == i {
      assert GoodBuf(s, i);
      assert refs[s.bufs[i].blockno] == Refs(s, s.bufs[i].blockno);
    }
    AsManyBuffersAsBlocks(s, used, held);
    FreeOrUsed(s.bufs);
  }

  // ----- the cache itself -----

  /** The list without buffer `i`. */
  function Unlink(order: seq<nat>, i: nat): (r: seq<nat>)
    ensures forall j :: j in r <==> j in order && j != i
  {
    if order == [] then []
    else if order[0] == i then Unlink(order[1..], i)
    else [order[0]] + Unlink(order[1..], i)
  }

  /** The list runs from the buffer moved to the front last to the one moved there longest ago. */
  ghost predicate ByRecency(order: seq<nat>, moved: seq<nat>) {
    order == [] || (
      && order[0] < |moved| && ByRecency(order[1..], moved)
      && forall j :: j in order[1..] ==> j < |moved| && moved[order[0]] > moved[j])
  }

  lemma {:induction false} LaterIsOlder(order: seq<nat>, moved: seq<nat>, p: nat, q: nat)
    requires ByRecency(order, moved) && p < q < |order|
    ensures order[p] < |moved| && order[q] < |moved| && moved[order[p]] > moved[order[q]]
  {
    if p > 0 {
      LaterIsOlder(order[1..], moved, p - 1, q - 1);
    } else {
      assert order[q] == order[1..][q - 1];
      assert order[q] in order[1..];
    }
  }

  lemma {:induction false} UnlinkKeepsRecency(order: seq<nat>, moved: seq<nat>, i: nat)
    requires ByRecency(order, moved)
    ensures ByRecency(Unlink(order, i), moved)
  {
    if order != [] {
      UnlinkKeepsRecency(order[1..], moved, i);
    }
  }

  lemma {:induction false} SameRecency(order: seq<nat>, moved: seq<nat>, i: nat, t: nat)
    requires ByRecency(order, moved) && i < |moved| && i !in order
    ensures ByRecency(order, moved[i := t])
  {
    if order != [] {
      SameRecency(order[1..], moved, i, t);
    }
  }

  lemma InRecency(order: seq<nat>, moved: seq<nat>)
    requires ByRecency(order, moved)
    ensures forall j :: j in order ==> j < |moved|
  {
    forall j | j in order ensures j < |moved| {
      assert j == order[0] || j in order[1..];
    }
  }

  /** The list that pushing buffers 0 to n - 1 to the front in turn makes. */
  function Pushed(n: nat): (order: seq<nat>)
    ensures forall j :: j in order <==> 0 <= j < n
  {
    if n == 0 then [] else [n - 1] + Pushed(n - 1)
  }

  lemma {:induction false} PushedByRecency(n: nat, moved: seq<nat>)
    requires n <= |moved| && forall i :: 0 <= i < |moved| ==> moved[i] == i
    ensures ByRecency(Pushed(n), moved)
  {
    if n > 0 {
      PushedByRecency(n - 1, moved);
      assert Pushed(n)[1..] == Pushed(n - 1);
    }
  }

  lemma MoveToFrontKeepsRecency(order: seq<nat>, moved: seq<nat>, i: nat, clock: nat)
    requires ByRecency(order, moved) && i < |moved| && forall j :: 0 <= j < |moved| ==> moved[j] < clock
    ensures ByRecency([i] + Unlink(order, i), moved[i := clock])
  {
    var rest := Unlink(order, i);
    UnlinkKeepsRecency(order, moved, i);
    SameRecency(rest, moved, i, clock);
    assert ([i] + rest)[1..] == rest;
    InRecency(rest, moved);
  }

  class Cache {
    const disk: Disk
    const bufs: array<Buf>
    var order: seq<nat>              // most recently used first
    ghost var index: map<nat, nat>   // which buffer has a block
    ghost var dirty: map<nat, Data>  // what has been put in a block and is not on the disk yet
    ghost var refs: multiset<nat>    // the holders and pins of each block
    ghost var free: nat              // how many buffers nobody holds
    ghost var moved: seq<nat>        // when each buffer was last moved to the front
    ghost var clock: nat

    ghost function Now(): State
      reads this, disk, bufs
    {
      State(bufs[..], index, dirty, disk.blocks)
    }

    ghost predicate Listed()
      reads this
    {
      && (forall j :: j in order <==> 0 <= j < bufs.Length)
      && |moved| == bufs.Length && ByRecency(order, moved)
      && (forall j :: 0 <= j < |moved| ==> moved[j] < clock)
    }

    ghost predicate Valid()
      reads this, disk, bufs
    {
      Listed() && Good(Now()) && Counts(Now(), refs, free)
    }

    /** Someone holds block `b`, and it is in buffer `i`. */
    ghost predicate At(i: nat, b: nat)
      reads this
    {
      b in refs && b in index && index[b] == i
    }

    /** What reading block `b` must give: the contents last put there. */
    ghost function Has(b: nat): Data
      requires b in dirty || b < |disk.blocks|
      reads this, disk
    {
      if b in dirty then dirty[b] else disk.blocks[b]
    }

    lemma HeldBuffer(i: nat, b: nat)
      requires Valid() && At(i, b)
      ensures i < bufs.Length && b < |disk.blocks| && bufs[i].data == Has(b) && bufs[i].blockno == b && Holds(Now(), i, b) && refs[b] == bufs[i].refcnt
    {
      Spelt(Now());
      assert refs[b] == Refs(Now(), b);
      assert GoodBuf(Now(), i);
    }

    lemma DirtyIsHeld()
      requires Valid()
      ensures forall b :: b in dirty ==> b in refs
      ensures forall b :: b in refs ==> b in index && b < |disk.blocks|
    {
      Spelt(Now());
      forall b: nat ensures (b in dirty ==> b in refs) && (b in refs ==> b in index && b < |disk.blocks|) {
        assert refs[b] == Refs(Now(), b);
        assert b in index ==> GoodBuf(Now(), index[b]);
      }
    }

    constructor (disk: Disk, nbuf: nat)
      ensures Valid() && this.disk == disk && bufs.Length == nbuf && fresh(this) && fresh(bufs)
      ensures dirty == map[] && free == nbuf && refs == multiset{}
    {
      this.disk := disk;
      bufs := new Buf[nbuf](_ => BLANK);
      index, dirty, refs, free := map[], map[], multiset{}, nbuf;
      order := Pushed(nbuf);
      moved, clock := seq(nbuf, i => i), nbuf;
      new;
      PushedByRecency(nbuf, moved);
      AllFree(bufs[..]);
    }

    /** Finds the buffer that has block `b`. */
    method Find(b: nat) returns (found: bool, i: nat)
      requires Valid()
      ensures found <==> b in index
      ensures found ==> i == index[b] && i < bufs.Length
    {
      i := 0;
      for p := 0 to |order|
        invariant forall j :: 0 <= j < bufs.Length && j in order[..p] ==> !(bufs[j].dev == ROOTDEV && bufs[j].blockno == b)
      {
        i := order[p];
        assert i in order;
        if bufs[i].dev == ROOTDEV && bufs[i].blockno == b {
          assert GoodBuf(Now(), i);
          return true, i;
        }
      }
      Spelt(Now());
      assert order[..|order|] == order;
      found := false;
      if b in index {
        assert index[b] in order;
      }
    }

    /** Finds the unused buffer that was released longest ago. */
    method LeastRecentlyUsed() returns (i: nat)
      requires Valid() && free > 0
      ensures i < bufs.Length && bufs[i].refcnt == 0
      ensures forall j :: 0 <= j < bufs.Length && bufs[j].refcnt == 0 && j != i ==> moved[i] < moved[j]
    {
      ghost var f :| f in FreeSet(bufs[..]);
      assert f in order;
      ghost var q :| 0 <= q < |order| && order[q] == f;
      var p := |order| - 1;
      assert order[p] in order;
      while bufs[order[p]].refcnt > 0
        invariant q <= p < |order| && order[p] < bufs.Length
        invariant forall r :: p < r < |order| && order[r] < bufs.Length ==> bufs[order[r]].refcnt > 0
        decreases p
      {
        p := p - 1;
        assert order[p] in order;
      }
      i := order[p];
      forall j | 0 <= j < bufs.Length && bufs[j].refcnt == 0 && j != i ensures moved[i] < moved[j] {
        assert j in order;
        var r :| 0 <= r < |order| && order[r] == j;
        if r < p { LaterIsOlder(order, moved, r, p); }
      }
    }

    /** Makes the unused buffer `i` a buffer for block `b`. */
    method Recycle(b: nat, i: nat)
      requires i < bufs.Length
      modifies this`index, bufs
      ensures bufs[..] == old(bufs[..])[i := Buf(ROOTDEV, b, false, 1, old(bufs[i]).data)]
      ensures index == (if old(bufs[i].dev) == ROOTDEV then old(index) - {old(bufs[i].blockno)} else old(index))[b := i]
    {
      if bufs[i].dev == ROOTDEV { index := index - {bufs[i].blockno}; }
      index := index[b := i];
      bufs[i] := bufs[i].(dev := ROOTDEV, blockno := b, valid := false, refcnt := 1);
    }

    /** bget: takes hold of the buffer that has block `b`; if none has it, the unused buffer released
        longest ago is recycled. */
    method Bget(b: nat) returns (i: nat)
      requires Valid() && b < |disk.blocks| && (b in index || free > 0)
      modifies this`index, bufs
      ensures i < bufs.Length && Eligible(old(Now()), b, i) && bufs[..] == old(bufs[..])[i := bufs[i]]
      ensures bufs[i] == if old(b in index) then old(bufs[i]).(refcnt := old(bufs[i].refcnt) + 1) else Buf(ROOTDEV, b, false, 1, old(bufs[i]).data)
      ensures index == Acquired(old(Now()), b, i).index
      ensures old(b !in index) ==> forall j :: 0 <= j < bufs.Length && old(bufs[j].refcnt) == 0 && j != i ==> moved[i] < moved[j]
    {
      var found;
      found, i := Find(b);
      if found {
        bufs[i] := bufs[i].(refcnt := bufs[i].refcnt + 1);
      } else {
        i := LeastRecentlyUsed();
        Recycle(b, i);
      }
    }

    /** bread: takes hold of the buffer that has block `b`, read from the disk if need be. A buffer that
        someone holds or pins stays where it is. */
    method Bread(b: nat) returns (i: nat)
      requires Valid() && b < |disk.blocks| && (b in refs || free > 0)
      modifies this`index, this`refs, this`free, bufs
      ensures Valid() && At(i, b) && refs == old(refs) + multiset{b}
      ensures free == old(free) - if b in old(refs) then 0 else 1
      ensures forall c :: c in old(refs) ==> c in index && c in old(index) && index[c] == old(index)[c]
      ensures old(b !in index) ==> i < bufs.Length && forall j :: 0 <= j < bufs.Length && old(bufs[j].refcnt) == 0 && j != i ==> moved[i] < moved[j]
    {
      ghost var s := Now();
      DirtyIsHeld();
      i := Bget(b);
      Fill(i, b, s);
      NoteAcquired(s, b, i);
    }

    /** Reads a recycled buffer's block from the disk. */
    method Fill(i: nat, b: nat, ghost s: State)
      requires Good(s) && b < |s.blocks| && Eligible(s, b, i) && s.blocks == disk.blocks && s.dirty == dirty && i < bufs.Length == |s.bufs|
      requires bufs[..] == s.bufs[i := bufs[i]]
      requires bufs[i] == if b in s.index then s.bufs[i].(refcnt := s.bufs[i].refcnt + 1) else Buf(ROOTDEV, b, false, 1, s.bufs[i].data)
      modifies bufs
      ensures bufs[..] == Acquired(s, b, i).bufs
    {
      Spelt(s);
      assert GoodBuf(s, i);
      if !bufs[i].valid {
        var d := disk.Read(b);
        bufs[i] := bufs[i].(data := d, valid := true);
      }
    }

    ghost method NoteAcquired(s: State, b: nat, i: nat)
      requires Listed() && Good(s) && Counts(s, refs, free) && b < |s.blocks| && Eligible(s, b, i) && Now() == Acquired(s, b, i)
      modifies this`refs, this`free
      ensures Valid() && At(i, b) && refs == old(refs) + multiset{b} && free == old(free) - if b in old(refs) then 0 else 1
      ensures forall c :: c in old(refs) ==> c in index && c in s.index && index[c] == s.index[c]
    {
      AcquiredIsGood(s, b, i);
      AcquiredCounts(s, b, i, refs, free);
      free := free - if b in refs then 0 else 1;
      refs := refs + multiset{b};
    }

    /** The holder changes the contents of its buffer. */
    method Put(i: nat, d: Data, ghost b: nat)
      requires Valid() && At(i, b)
      modifies this`dirty, bufs
      ensures Valid() && dirty == old(dirty)[b := d]
    {
      ghost var s := Now();
      HeldBuffer(i, b);
      ChangedKeeps(s, i, b, d, refs, free);
      bufs[i] := bufs[i].(data := d);
      dirty := dirty[b := d];
      assert bufs[..] == Changed(s, i, d).bufs;
    }

    /** bwrite. */
    method Bwrite(i: nat, ghost b: nat)
      requires Valid() && At(i, b)
      modifies this`dirty, disk
      ensures Valid() && b < |old(disk.blocks)|
      ensures dirty == old(dirty) - {b} && disk.blocks == old(disk.blocks)[b := old(Has(b))]
      ensures disk.writes == old(disk.writes) + [Write(b, old(Has(b)))]
    {
      HeldBuffer(i, b);
      FlushedKeeps(Now(), i, b, refs, free);
      disk.Write(bufs[i].blockno, bufs[i].data);
      dirty := dirty - {b};
    }

    /** brelse: contents the disk does not have must be pinned by someone else. A buffer that becomes
        unused moves to the front of the list. */
    method Brelse(i: nat, ghost b: nat)
      requires Valid() && At(i, b) && (b in dirty ==> refs[b] > 1)
      modifies this`order, this`moved, this`clock, this`refs, this`free, bufs
      ensures Valid() && refs == old(refs) - multiset{b} && free == old(free) + if old(refs)[b] == 1 then 1 else 0
      ensures order == if old(refs)[b] == 1 then [i] + Unlink(old(order), i) else old(order)
    {
      HeldBuffer(i, b);
      Count(i, bufs[i].refcnt - 1, b);
      if bufs[i].refcnt == 0 {
        ToFront(i);
      }
    }

    /** Sets the reference count of a buffer. */
    method Count(i: nat, refcnt: nat, ghost b: nat)
      requires Valid() && At(i, b) && (b in dirty ==> refcnt > 0)
      modifies this`refs, this`free, bufs
      ensures Valid() && refs == old(refs)[b := refcnt] && free == old(free) + if refcnt == 0 then 1 else 0
      ensures i < bufs.Length && bufs[i].refcnt == refcnt
    {
      ghost var s := Now();
      HeldBuffer(i, b);
      RecountedKeeps(s, i, b, refcnt);
      RecountedCounts(s, i, b, refcnt, refs, free);
      bufs[i] := bufs[i].(refcnt := refcnt);
      refs, free := refs[b := refcnt], free + if refcnt == 0 then 1 else 0;
      assert bufs[..] == Recounted(s, i, refcnt).bufs;
    }

    /** Makes buffer `i` the most recently used one. */
    method ToFront(i: nat)
      requires Listed() && i < bufs.Length
      modifies this`order, this`moved, this`clock
      ensures Listed() && order == [i] + Unlink(old(order), i)
    {
      MoveToFrontKeepsRecency(order, moved, i, clock);
      order := [i] + Unlink(order, i);
      moved, clock := moved[i := clock], clock + 1;
    }

    method Bpin(i: nat, ghost b: nat)
      requires Valid() && At(i, b)
      modifies this`refs, this`free, bufs
      ensures Valid() && refs == old(refs) + multiset{b} && free == old(free)
    {
      HeldBuffer(i, b);
      Count(i, bufs[i].refcnt + 1, b);
    }

    method Bunpin(i: nat, ghost b: nat)
      requires Valid() && At(i, b) && (b in dirty ==> refs[b] > 1)
      modifies this`refs, this`free, bufs
      ensures Valid() && refs == old(refs) - multiset{b} && free == old(free) + if old(refs)[b] == 1 then 1 else 0
    {
      HeldBuffer(i, b);
      Count(i, bufs[i].refcnt - 1, b);
    }

    /** Changes the contents of a held buffer and writes it out. */
    method WriteThrough(i: nat, d: Data, ghost b: nat)
      requires Valid() && At(i, b)
      modifies this`dirty, bufs, disk
      ensures Valid() && b < |old(disk.blocks)|
      ensures dirty == (if b in old(dirty) then old(dirty) - {b} else old(dirty))
      ensures disk.blocks == old(disk.blocks)[b := d] && disk.writes == old(disk.writes) + [Write(b, d)]
    {
      ghost var was := dirty;
      Put(i, d, b);
      Bwrite(i, b);
      assert was[b := d] - {b} == if b in was then was - {b} else was;
    }

    /** Takes hold of two blocks. */
    method BreadTwo(a: nat, b: nat) returns (i: nat, j: nat)
      requires Valid() && a < |disk.blocks| && b < |disk.blocks| && a != b && free > 0 && (a in refs || b in refs || free > 1)
      modifies this`index, this`refs, this`free, bufs
      ensures Valid() && At(i, a) && At(j, b) && refs == old(refs) + multiset{a} + multiset{b}
      ensures free == old(free) - (if a in old(refs) then 0 else 1) - (if b in old(refs) then 0 else 1)
    {
      i := Bread(a);
      j := Bread(b);
    }

    /** Copies block `b` over block `a` on the disk; both stay held. */
    method CopyBlock(a: nat, b: nat) returns (i: nat, j: nat)
      requires Valid() && a < |disk.blocks| && b < |disk.blocks| && a != b && free > 0 && (a in refs || b in refs || free > 1)
      modifies this`index, this`refs, this`free, this`dirty, bufs, disk
      ensures Valid() && At(i, a) && At(j, b) && refs == old(refs) + multiset{a} + multiset{b}
      ensures free == old(free) - (if a in old(refs) then 0 else 1) - (if b in old(refs) then 0 else 1)
      ensures dirty == (if a in old(dirty) then old(dirty) - {a} else old(dirty))
      ensures disk.blocks == old(disk.blocks)[a := old(Has(b))] && disk.writes == old(disk.writes) + [Write(a, old(Has(b)))]
    {
      i, j := BreadTwo(a, b);
      HeldBuffer(j, b);
      WriteThrough(i, bufs[j].data, a);
    }

    method BrelseTwo(i: nat, j: nat, ghost a: nat, ghost b: nat)
      requires Valid() && a != b && At(i, a) && At(j, b)
      requires (a in dirty ==> refs[a] > 1) && (b in dirty ==> refs[b] > 1)
      modifies this`order, this`moved, this`clock, this`refs, this`free, bufs
      ensures Valid() && refs == old(refs) - multiset{a} - multiset{b}
      ensures free == old(free) + (if old(refs)[a] == 1 then 1 else 0) + (if old(refs)[b] == 1 then 1 else 0)
    {
      Brelse(i, a);
      Brelse(j, b);
    }

    /** Another process reads a block and lets it go again. */
    method ReadOnce(b: nat)
      requires Valid() && b < |disk.blocks| && free > 0
      modifies this`index, this`refs, this`free, this`order, this`moved, this`clock, bufs
      ensures Valid() && refs == old(refs) && free == old(free)
      ensures forall c :: c in refs ==> c in index && c in old(index) && index[c] == old(index)[c]
    {
      DirtyIsHeld();
      var i := Bread(b);
      Brelse(i, b);
      assert refs == old(refs);
    }

    /** Any number of reads by other processes: whoever holds or pins a buffer does not notice. */
    method Traffic()
      requires Valid() && free > 0
      modifies this`index, this`refs, this`free, this`order, this`moved, this`clock, bufs
      ensures Valid() && refs == old(refs) && free == old(free)
      ensures forall c :: c in refs ==> c in index && c in old(index) && index[c] == old(index)[c]
    {
      DirtyIsHeld();
      var left: int := *;
      while left > 0
        invariant Valid() && refs == old(refs) && free == old(free)
        invariant forall c :: c in refs ==> c in index && c in old(index) && index[c] == old(index)[c]
        decreases left
      {
        var b: int := *;
        if 0 <= b < |disk.blocks| {
          ReadOnce(b);
        }
        left := left - 1;
      }
    }
  }

  lemma AllFree(bufs: seq<Buf>)
    requires forall i :: 0 <= i < |bufs| ==> bufs[i].refcnt == 0
    ensures |FreeSet(bufs)| == |bufs|
  {
    FreeOrUsed(bufs);
    assert UsedSet(bufs) == {};
  }
}
