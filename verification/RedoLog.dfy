/** The redo log over the buffer cache: operations reserve space, modified buffers are pinned until
    the commit, and the commit performs exactly the disk writes of LogImage.CommitWrites.
    (projects/07-xv6plus/kernel/log.c) */
module RedoLog {
  import opened LogImage
  import opened LogSpace
  import opened BufferCache

  /** A block the disk lacks has been modified: it is listed in the header, or its holder has yet to
      log it. */
  predicate Placed(start: nat, lh: seq<Word>, dirty: map<nat, Data>, holds: multiset<nat>, unlogged: set<nat>, b: nat) {
    && (b in dirty <==> b in lh || b in unlogged)
    && (b in unlogged ==> b in holds && b !in lh && Home(start, b))
  }

  ghost predicate Listing(size: nat, start: nat, lh: seq<Word>, dirty: map<nat, Data>, holds: multiset<nat>, unlogged: set<nat>) {
    && start + LOGBLOCKS < size && Loggable(size, start, lh)
    && forall b {:trigger Placed(start, lh, dirty, holds, unlogged, b)} :: Placed(start, lh, dirty, holds, unlogged, b)
  }

  lemma ListingModified(size: nat, start: nat, lh: seq<Word>, dirty: map<nat, Data>, holds: multiset<nat>, unlogged: set<nat>, b: nat, d: Data)
    requires Listing(size, start, lh, dirty, holds, unlogged) && b in holds && Home(start, b)
    ensures Listing(size, start, lh, dirty[b := d], holds, if b in lh then unlogged else unlogged + {b})
  {
    var more := if b in lh then unlogged else unlogged + {b};
    var after := dirty[b := d];
    forall c: nat ensures Placed(start, lh, after, holds, more, c) {
      assert Placed(start, lh, dirty, holds, unlogged, c);
    }
  }

  lemma ListingHeld(size: nat, start: nat, lh: seq<Word>, dirty: map<nat, Data>, holds: multiset<nat>, unlogged: set<nat>, b: nat)
    requires Listing(size, start, lh, dirty, holds, unlogged)
    ensures Listing(size, start, lh, dirty, holds + multiset{b}, unlogged)
    ensures b !in unlogged ==> Listing(size, start, lh, dirty, holds - multiset{b}, unlogged)
    ensures (b in dirty <==> b in lh || b in unlogged) && (b in unlogged ==> b !in lh)
  {
    assert Placed(start, lh, dirty, holds, unlogged, b);
    forall c: nat ensures Placed(start, lh, dirty, holds + multiset{b}, unlogged, c) {
      assert Placed(start, lh, dirty, holds, unlogged, c);
    }
    if b !in unlogged {
      forall c: nat ensures Placed(start, lh, dirty, holds - multiset{b}, unlogged, c) {
        assert Placed(start, lh, dirty, holds, unlogged, c);
      }
    }
  }

  lemma ListingWith(size: nat, start: nat, lh: seq<Word>, dirty: map<nat, Data>, holds: multiset<nat>, unlogged: set<nat>, b: Word)
    requires Listing(size, start, lh, dirty, holds, unlogged) && b in unlogged && |lh| < LOGBLOCKS && b < size
    ensures b !in lh && Listing(size, start, lh + [b], dirty, holds, unlogged - {b})
  {
    assert Placed(start, lh, dirty, holds, unlogged, b);
    forall c: nat ensures Placed(start, lh + [b], dirty, holds, unlogged - {b}, c) {
      assert Placed(start, lh, dirty, holds, unlogged, c);
    }
  }

  lemma NothingListed(size: nat, start: nat, holds: multiset<nat>)
    requires start + LOGBLOCKS < size
    ensures Listing(size, start, [], map[], holds, {})
  {
  }

  /** With everything logged, the listed blocks are what the disk lacks. */
  lemma AllListed(size: nat, start: nat, lh: seq<Word>, dirty: map<nat, Data>, holds: multiset<nat>)
    requires Listing(size, start, lh, dirty, holds, {})
    ensures forall b :: b in dirty <==> b in lh
  {
    forall b: nat ensures b in dirty <==> b in lh {
      assert Placed(start, lh, dirty, holds, {}, b);
    }
  }

  /** The counters of the log are those of the reservation machine. */
  ghost predicate Tallied(ops: Ops, outstanding: nat, committing: bool, n: nat) {
    Inv(ops) && outstanding == |ops.active| && committing == ops.committing && n == ops.n
  }

  lemma AddIsTallied(ops: Ops, outstanding: nat, committing: bool, n: nat, p: Pid)
    requires Tallied(ops, outstanding, committing, n) && Enabled(ops, Add(p))
    ensures Tallied(Next(ops, Add(p)), outstanding, committing, n + 1) && n < LOGBLOCKS
  {
    RoomForOne(ops, p);
    InvKept(ops, Add(p));
    assert Next(ops, Add(p)).active.Keys == ops.active.Keys;
    assert |Next(ops, Add(p)).active| == |ops.active|;
  }

  lemma EndIsTallied(ops: Ops, outstanding: nat, committing: bool, n: nat, p: Pid)
    requires Tallied(ops, outstanding, committing, n) && p in ops.active
    ensures !committing && outstanding >= 1
    ensures Tallied(Next(ops, End(p)), outstanding - 1, outstanding == 1, n)
  {
    InvKept(ops, End(p));
    assert (ops.active - {p}).Keys == ops.active.Keys - {p};
    assert |ops.active - {p}| == |ops.active| - 1;
  }

  function Pins(lh: seq<Word>, b: nat): nat {
    if b in lh then 1 else 0
  }

  /** Every reference to a buffer is a holder's or the one pin of a listed block. */
  ghost predicate Accounted(refs: multiset<nat>, holds: multiset<nat>, lh: seq<Word>) {
    forall b {:trigger Pins(lh, b)} :: refs[b] == holds[b] + Pins(lh, b)
  }

  lemma AcquireAccounted(refs: multiset<nat>, holds: multiset<nat>, lh: seq<Word>, b: nat)
    requires Accounted(refs, holds, lh)
    ensures Accounted(refs + multiset{b}, holds + multiset{b}, lh)
  {
    forall c ensures (refs + multiset{b})[c] == (holds + multiset{b})[c] + Pins(lh, c) {
      assert refs[c] == holds[c] + Pins(lh, c);
    }
  }

  lemma ReleaseAccounted(refs: multiset<nat>, holds: multiset<nat>, lh: seq<Word>, b: nat)
    requires Accounted(refs, holds, lh) && b in holds
    ensures b in lh ==> refs[b] > 1
    ensures Accounted(refs - multiset{b}, holds - multiset{b}, lh)
  {
    assert refs[b] == holds[b] + Pins(lh, b);
    forall c ensures (refs - multiset{b})[c] == (holds - multiset{b})[c] + Pins(lh, c) {
      assert refs[c] == holds[c] + Pins(lh, c);
    }
  }

  lemma PinAccounted(refs: multiset<nat>, holds: multiset<nat>, lh: seq<Word>, b: Word)
    requires Accounted(refs, holds, lh) && b !in lh
    ensures Accounted(refs + multiset{b}, holds, lh + [b])
  {
    forall c: nat ensures (refs + multiset{b})[c] == holds[c] + Pins(lh + [b], c) {
      assert refs[c] == holds[c] + Pins(lh, c);
    }
  }

  /** The cache holds the transaction's contents. */
  ghost predicate Cached(t: Txn, dirty: map<nat, Data>) {
    |t.datas| == |t.lh| && forall i :: 0 <= i < |t.lh| ==> t.lh[i] in dirty && dirty[t.lh[i]] == t.datas[i]
  }

  ghost predicate HomesOnly(start: nat, dirty: map<nat, Data>) {
    forall b :: b in dirty ==> Home(start, b)
  }

  lemma OneMore(img: Image, ws: seq<Write>, k: nat)
    requires InRange(|img|, ws) && k < |ws|
    ensures ws[..k + 1] == ws[..k] + [ws[k]]
    ensures Apply(img, ws[..k + 1]) == Apply(img, ws[..k])[ws[k].block := ws[k].data]
  {
    ApplyOne(img, ws[..k], ws[k]);
  }

  lemma MultisetAlgebra(refs: multiset<nat>, a: nat, b: nat)
    ensures refs + multiset{a} + multiset{b} - multiset{b} - multiset{a} == refs
    ensures refs + multiset{a} + multiset{b} - multiset{a} - multiset{b} - multiset{a} == refs - multiset{a}
  {
  }

  predicate InSlots(img: Image, start: nat, t: Txn) {
    && HasLog(img, start) && |t.datas| == |t.lh| <= LOGBLOCKS
    && forall i :: 0 <= i < |t.lh| ==> Slot(img, start, i) == t.datas[i]
  }

  lemma UnpinAccounted(refs: multiset<nat>, holds: multiset<nat>, lh: seq<Word>, k: nat)
    requires k < |lh| && Distinct(lh) && Accounted(refs, holds, lh[k..])
    ensures lh[k] in refs && Accounted(refs - multiset{lh[k]}, holds, lh[k + 1..])
  {
    var rest, less := lh[k..], lh[k + 1..];
    assert rest == [lh[k]] + less;
    assert refs[lh[k]] == holds[lh[k]] + Pins(rest, lh[k]);
    assert lh[k] !in less;
    forall c: nat ensures (refs - multiset{lh[k]})[c] == holds[c] + Pins(less, c) {
      assert refs[c] == holds[c] + Pins(rest, c);
    }
  }

  predicate StillOut(lh: seq<Word>, start: nat, dirty: map<nat, Data>, k: nat, b: nat) {
    b in dirty ==> k <= |lh| && b in lh[k..] && Home(start, b)
  }

  /** The first `k` blocks are home: neither unwritten contents nor, after a commit, pins are left of them. */
  ghost predicate HomeSoFar(t: Txn, start: nat, dirty: map<nat, Data>, refs: multiset<nat>, holds: multiset<nat>, recovering: bool, k: nat) {
    && k <= |t.lh|
    && (forall b {:trigger StillOut(t.lh, start, dirty, k, b)} :: StillOut(t.lh, start, dirty, k, b))
    && if recovering then dirty == map[] else Accounted(refs, holds, t.lh[k..])
  }

  lemma NoneIsHome(t: Txn, start: nat, dirty: map<nat, Data>, refs: multiset<nat>, holds: multiset<nat>)
    requires Accounted(refs, holds, t.lh) && HomesOnly(start, dirty) && forall b :: b in dirty ==> b in t.lh
    ensures HomeSoFar(t, start, dirty, refs, holds, false, 0)
  {
    assert t.lh[0..] == t.lh;
    forall b: nat ensures StillOut(t.lh, start, dirty, 0, b) {}
  }

  lemma NextIsHome(t: Txn, start: nat, dirty: map<nat, Data>, refs: multiset<nat>, holds: multiset<nat>, recovering: bool, k: nat)
    requires HomeSoFar(t, start, dirty, refs, holds, recovering, k) && k < |t.lh| <= LOGBLOCKS && Distinct(t.lh)
    ensures !recovering ==> t.lh[k] in refs
    ensures HomeSoFar(t, start, dirty - {t.lh[k]}, if recovering then refs else refs - multiset{t.lh[k]}, holds, recovering, k + 1)
    ensures recovering ==> dirty - {t.lh[k]} == dirty
    ensures start + 1 + k !in dirty
  {
    assert t.lh[k..] == [t.lh[k]] + t.lh[k + 1..];
    assert StillOut(t.lh, start, dirty, k, start + 1 + k);
    var rest, next := dirty - {t.lh[k]}, k + 1;
    forall b: nat ensures StillOut(t.lh, start, rest, next, b) {
      assert StillOut(t.lh, start, dirty, k, b);
    }
    if !recovering { UnpinAccounted(refs, holds, t.lh, k); }
  }

  lemma AllAreHome(t: Txn, start: nat, dirty: map<nat, Data>, refs: multiset<nat>, holds: multiset<nat>, recovering: bool)
    requires HomeSoFar(t, start, dirty, refs, holds, recovering, |t.lh|)
    ensures dirty == map[] && (!recovering ==> Accounted(refs, holds, []))
  {
    assert t.lh[|t.lh|..] == [];
    forall b: nat ensures b !in dirty {
      assert StillOut(t.lh, start, dirty, |t.lh|, b);
    }
  }

  lemma SlotsNext(img: Image, start: nat, t: Txn, dirty: map<nat, Data>, k: nat)
    requires HasLog(img, start) && Committable(|img|, start, t) && Cached(t, dirty) && HomesOnly(start, dirty) && k < |t.lh|
    ensures t.lh[k] in dirty && dirty[t.lh[k]] == t.datas[k] && start + 1 + k !in dirty
    ensures var ws := SlotWrites(start, t.datas);
      && InRange(|img|, ws) && ws[..k + 1] == ws[..k] + [Write(start + 1 + k, t.datas[k])]
      && Apply(img, ws[..k + 1]) == Apply(img, ws[..k])[start + 1 + k := t.datas[k]]
  {
    OneMore(img, SlotWrites(start, t.datas), k);
  }

  lemma InstallsNext(img: Image, start: nat, t: Txn, k: nat)
    requires Committable(|img|, start, t) && InSlots(img, start, t) && k < |t.lh|
    ensures var ws := InstallWrites(t.lh, t.datas);
      && InRange(|img|, ws) && ws[..k + 1] == ws[..k] + [Write(t.lh[k], t.datas[k])]
      && Apply(img, ws[..k + 1]) == Apply(img, ws[..k])[t.lh[k] := t.datas[k]]
  {
    OneMore(img, InstallWrites(t.lh, t.datas), k);
  }

  /** The slots stay as they are while blocks go home. */
  lemma SlotStays(img: Image, start: nat, t: Txn, k: nat)
    requires Committable(|img|, start, t) && InSlots(img, start, t) && k < |t.lh|
    ensures var ws := InstallWrites(t.lh, t.datas);
      InRange(|img|, ws[..k]) && Apply(img, ws[..k])[start + 1 + k] == t.datas[k]
  {
    var b := start + 1 + k;
    assert b !in t.lh;
    assert Slot(img, start, k) == t.datas[k];
    InstalledElsewhere(img, start, t.lh, t.datas, k, b);
  }

  /** The disk takes the next of the writes. */
  lemma OneMoreTaken(img: Image, before: seq<Write>, ws: seq<Write>, k: nat, now: Image, done: seq<Write>, w: Write, next: Image, more: seq<Write>)
    requires InRange(|img|, ws) && k < |ws| && ws[..k + 1] == ws[..k] + [w] && w.block < |img|
    requires Apply(img, ws[..k + 1]) == Apply(img, ws[..k])[w.block := w.data]
    requires now == Apply(img, ws[..k]) && done == before + ws[..k] && next == now[w.block := w.data] && more == done + [w]
    ensures next == Apply(img, ws[..k + 1]) && more == before + ws[..k + 1]
  {
  }

  lemma SlotsLeaveHeader(img: Image, start: nat, t: Txn)
    requires HasLog(img, start) && Committable(|img|, start, t)
    ensures var ws := SlotWrites(start, t.datas);
      && InRange(|img|, ws) && ws[..|t.lh|] == ws && Apply(img, ws)[start] == img[start]
    ensures InRange(|img|, FirstWrites(img[start], start, t))
    ensures Apply(img, FirstWrites(img[start], start, t)) == Apply(img, SlotWrites(start, t.datas))[start := WithHead(img[start], t.lh)]
  {
    ApplyElsewhere(img, SlotWrites(start, t.datas), start);
    FirstWritesMark(img, start, t);
  }

  lemma InstallsLeaveHeader(img: Image, start: nat, t: Txn)
    requires HasLog(img, start) && Committable(|img|, start, t)
    ensures var ws := InstallWrites(t.lh, t.datas);
      && InRange(|img|, ws) && ws[..|t.lh|] == ws && Apply(img, ws)[start] == img[start]
    ensures InRange(|img|, LastWrites(img[start], start, t))
    ensures Apply(img, LastWrites(img[start], start, t)) == Apply(img, InstallWrites(t.lh, t.datas))[start := WithHead(img[start], [])]
  {
    var ws := InstallWrites(t.lh, t.datas);
    InstalledElsewhere(img, start, t.lh, t.datas, |t.lh|, start);
    assert ws[..|t.lh|] == ws;
    ApplyOne(img, ws, Write(start, WithHead(img[start], [])));
  }

  /** The disk `from` has taken the writes `ws` and become `to`. */
  ghost predicate Became(from: Image, before: seq<Write>, ws: seq<Write>, to: Image, after: seq<Write>) {
    InRange(|from|, ws) && to == Apply(from, ws) && after == before + ws
  }

  lemma DiskInTwo(img: Image, start: nat, t: Txn, mid: Image)
    requires HasLog(img, start) && Committable(|img|, start, t) && t.lh != [] && mid == Marked(img, start, t)
    requires InRange(|img|, LastWrites(mid[start], start, t))
    ensures var ws := CommitWrites(img[start], start, t);
      && ws == FirstWrites(img[start], start, t) + LastWrites(mid[start], start, t)
      && InRange(|img|, ws) && Apply(img, ws) == Apply(mid, LastWrites(mid[start], start, t))
  {
    FirstWritesMark(img, start, t);
    ApplyConcat(img, FirstWrites(img[start], start, t), LastWrites(mid[start], start, t));
  }

  lemma TraceInTwo(before: seq<Write>, first: seq<Write>, last: seq<Write>)
    ensures before + first + last == before + (first + last)
  {
  }

  /** The writes of a commit are those of its two halves, the second on the disk the first leaves. */
  lemma CommitInTwo(img: Image, before: seq<Write>, start: nat, t: Txn, mid: Image, between: seq<Write>, end: Image, after: seq<Write>)
    requires HasLog(img, start) && Committable(|img|, start, t) && t.lh != []
    requires mid == Marked(img, start, t) && between == before + FirstWrites(img[start], start, t)
    requires Became(mid, between, LastWrites(mid[start], start, t), end, after)
    ensures Became(img, before, CommitWrites(img[start], start, t), end, after)
  {
    DiskInTwo(img, start, t, mid);
    TraceInTwo(before, FirstWrites(img[start], start, t), LastWrites(mid[start], start, t));
  }

  /** Slots, then header: the second half finds the transaction in the slots. */
  lemma FirstHalf(img: Image, before: seq<Write>, start: nat, t: Txn, slotted: Image, between: seq<Write>, mid: Image, after: seq<Write>)
    requires HasLog(img, start) && Committable(|img|, start, t) && t.lh != []
    requires InRange(|img|, SlotWrites(start, t.datas))
    requires slotted == Apply(img, SlotWrites(start, t.datas)[..|t.lh|]) && between == before + SlotWrites(start, t.datas)[..|t.lh|]
    requires mid == slotted[start := WithHead(slotted[start], t.lh)] && after == between + [Write(start, WithHead(slotted[start], t.lh))]
    ensures mid == Marked(img, start, t) && InSlots(mid, start, t) && after == before + FirstWrites(img[start], start, t)
  {
    SlotsLeaveHeader(img, start, t);
    MarkedSlots(img, start, t);
  }

  /** Homes, then header. */
  lemma SecondHalf(img: Image, before: seq<Write>, start: nat, t: Txn, homed: Image, between: seq<Write>, end: Image, after: seq<Write>)
    requires HasLog(img, start) && Committable(|img|, start, t) && InRange(|img|, InstallWrites(t.lh, t.datas))
    requires homed == Apply(img, InstallWrites(t.lh, t.datas)[..|t.lh|]) && between == before + InstallWrites(t.lh, t.datas)[..|t.lh|]
    requires end == homed[start := WithHead(homed[start], [])] && after == between + [Write(start, WithHead(homed[start], []))]
    ensures Became(img, before, LastWrites(img[start], start, t), end, after)
  {
    InstallsLeaveHeader(img, start, t);
  }

  lemma CommitDone(img: Image, before: seq<Write>, start: nat, t: Txn, end: Image, after: seq<Write>)
    requires Clear(img, start) && Committable(|img|, start, t) && Became(img, before, CommitWrites(img[start], start, t), end, after)
    ensures Clear(end, start) && Overwritten(img, start, t, end)
  {
    WholeCommit(img, start, t);
  }

  lemma NothingToCommit(img: Image, before: seq<Write>, start: nat, t: Txn)
    requires Clear(img, start) && Committable(|img|, start, t) && t.lh == []
    ensures Became(img, before, CommitWrites(img[start], start, t), img, before)
  {
  }

  /** `t` is the transaction that the operations have put together. */
  ghost predicate IsTxn(t: Txn, lh: seq<Word>, dirty: map<nat, Data>) {
    t.lh == lh && |lh| <= LOGBLOCKS && Cached(t, dirty)
  }

  /** The home blocks of `end` are those of `img` with the transaction's blocks overwritten. */
  ghost predicate Overwritten(img: Image, start: nat, t: Txn, end: Image) {
    Committable(|img|, start, t) && SameHomes(end, Overwrite(img, t), start)
  }

  lemma LastOne(ops: Ops, p: Pid)
    requires p in ops.active
    ensures Next(ops, End(p)).committing <==> ops.committing || |ops.active| == 1
    ensures |ops.active| == 1 ==> Next(ops, End(p)).active == map[]
  {
    assert (ops.active - {p}).Keys == ops.active.Keys - {p};
    assert |ops.active - {p}| == |ops.active| - 1;
  }

  lemma ClearAfterRecovery(img: Image, start: nat, end: Image)
    requires Recoverable(img, start) && end == Apply(img, RecoveryWrites(img, start))
    ensures Clear(end, start)
  {
    AfterLastWrites(img, img[start], start, Logged(img, start));
  }

  function PendingTxn(lh: seq<Word>, dirty: map<nat, Data>): (t: Txn)
    requires forall i :: 0 <= i < |lh| ==> lh[i] in dirty
    ensures t.lh == lh && Cached(t, dirty)
  {
    Txn(lh, seq(|lh|, i requires 0 <= i < |lh| => dirty[lh[i]]))
  }

  const NBUF := MAXOPBLOCKS * 3

  lemma {:induction false} DistinctCount(lh: seq<Word>, s: set<nat>)
    requires Distinct(lh) && forall b: nat :: b in s <==> b in lh
    ensures |s| == |lh|
  {
    if lh != [] {
      var m := |lh| - 1;
      assert lh == lh[..m] + [lh[m]];
      DistinctCount(lh[..m], s - {lh[m]});
    } else {
      assert s == {};
    }
  }

  class Log {
    const cache: Cache
    const start: nat
    const block: array<Word>     // lh.block
    var n: nat                   // lh.n
    var outstanding: nat
    var committing: bool
    ghost var lh: seq<Word>      // the listed blocks
    ghost var ops: Ops
    ghost var holds: multiset<nat>  // who has a buffer, block by block
    ghost var unlogged: set<nat>    // blocks modified and not yet given to log_write

    /** The in-memory header lists `lh`. */
    ghost predicate InHeader()
      reads this, block
    {
      block.Length == LOGBLOCKS && n == |lh| <= LOGBLOCKS && block[..n] == lh
    }

    /** Between the steps of operations: the log on disk is clear; every reference to a buffer is a
        holder's or the one pin of a listed block. */
    ghost predicate Valid()
      reads this, block, cache, cache.disk, cache.bufs
    {
      && cache.Valid() && InHeader()
      && Listing(|cache.disk.blocks|, start, lh, cache.dirty, holds, unlogged)
      && Accounted(cache.refs, holds, lh)
      && Clear(cache.disk.blocks, start)
      && Tallied(ops, outstanding, committing, n)
    }

    constructor (cache: Cache, start: nat)
      ensures this.cache == cache && this.start == start && lh == [] && InHeader() && ops == IDLE && holds == multiset{} && unlogged == {}
      ensures block.Length == LOGBLOCKS && fresh(block) && outstanding == 0 && !committing
    {
      this.cache, this.start := cache, start;
      block := new Word[LOGBLOCKS](_ => 0);
      n, lh, outstanding, committing := 0, [], 0, false;
      ops, holds, unlogged := IDLE, multiset{}, {};
    }

    // ----- operations -----

    /** One turn of begin_op: the operation enters, or has to sleep. */
    method BeginOp(p: Pid) returns (entered: bool)
      requires Valid() && Enabled(ops, Begin(p))
      modifies this`outstanding, this`ops
      ensures Valid() && ops == Next(old(ops), Begin(p))
      ensures entered <==> p in ops.active
    {
      InvKept(ops, Begin(p));
      entered := !committing && n + (outstanding + 1) * MAXOPBLOCKS <= LOGBLOCKS;
      ops := Next(ops, Begin(p));
      if entered {
        outstanding := outstanding + 1;
      }
    }

    /** bread, for an operation or any reader: the latest contents, logged or not. */
    method Acquire(b: nat) returns (i: nat)
      requires Valid() && b < |cache.disk.blocks| && cache.free > 0
      modifies this`holds, cache`index, cache`refs, cache`free, cache.bufs
      ensures Valid() && cache.At(i, b) && i < cache.bufs.Length && cache.bufs[i].data == cache.Has(b)
      ensures holds == old(holds) + multiset{b}
    {
      i := cache.Bread(b);
      cache.HeldBuffer(i, b);
      AcquireAccounted(old(cache.refs), holds, lh, b);
      ListingHeld(|cache.disk.blocks|, start, lh, cache.dirty, holds, unlogged, b);
      holds := holds + multiset{b};
    }

    /** The holder changes its buffer. */
    method Modify(i: nat, b: nat, d: Data)
      requires Valid() && cache.At(i, b) && b in holds && Home(start, b)
      modifies this`unlogged, cache`dirty, cache.bufs
      ensures Valid() && cache.dirty == old(cache.dirty)[b := d]
      ensures unlogged == if b in lh then old(unlogged) else old(unlogged) + {b}
    {
      ListingModified(|cache.disk.blocks|, start, lh, cache.dirty, holds, unlogged, b, d);
      cache.Put(i, d, b);
      if b !in lh { unlogged := unlogged + {b}; }
    }

    /** brelse: what has been modified must have been logged. */
    method Release(i: nat, b: nat)
      requires Valid() && cache.At(i, b) && b in holds && b !in unlogged
      modifies this`holds, cache`order, cache`moved, cache`clock, cache`refs, cache`free, cache.bufs
      ensures Valid() && holds == old(holds) - multiset{b}
    {
      ReleaseAccounted(cache.refs, holds, lh, b);
      ListingHeld(|cache.disk.blocks|, start, lh, cache.dirty, holds, unlogged, b);
      cache.Brelse(i, b);
      holds := holds - multiset{b};
    }

    /** Looks a block up in the header. */
    method Find(b: Word) returns (k: nat)
      requires InHeader()
      ensures k <= n && (k < n <==> b in lh) && (k < n ==> block[k] == b)
    {
      k := 0;
      while k < n && block[k] != b
        invariant 0 <= k <= n && b !in block[..k]
      {
        k := k + 1;
      }
    }

    /** Rewrites the entry a block already has. */
    method Absorb(k: nat, b: Word)
      requires InHeader() && k < n && block[k] == b
      modifies block
      ensures InHeader()
    {
      block[k] := b;
      assert block[..n] == old(block[..n]);
    }

    /** Gives `b` the next header entry. */
    method Enlist(b: Word)
      requires InHeader() && n < LOGBLOCKS
      modifies this`n, this`lh, block
      ensures InHeader() && lh == old(lh) + [b] && n == old(n) + 1
    {
      block[n] := b;
      n, lh := n + 1, lh + [b];
    }

    /** Gives a modified block the next header entry and pins it. */
    method Append(p: Pid, i: nat, b: Word)
      requires Valid() && cache.At(i, b) && b in unlogged && b < |cache.disk.blocks| && Enabled(ops, Add(p))
      modifies this`n, this`lh, this`ops, this`unlogged, block, cache`refs, cache`free, cache.bufs
      ensures Valid() && lh == old(lh) + [b]
      ensures ops == Next(old(ops), Add(p)) && unlogged == old(unlogged) - {b}
    {
      AddIsTallied(ops, outstanding, committing, n, p);
      ListingWith(|cache.disk.blocks|, start, lh, cache.dirty, holds, unlogged, b);
      PinAccounted(cache.refs, holds, lh, b);
      cache.Bpin(i, b);
      Enlist(b);
      ops, unlogged := Next(ops, Add(p)), unlogged - {b};
    }

    /** log_write: a block already in the log is absorbed; a new one takes the next entry and is pinned.
        `ok` is false where the source panics, "too big a transaction": the length is looked at first, so
        a full log refuses a block that it holds, too. An operation that has added fewer than MAXOPBLOCKS
        blocks never gets there. */
    method LogWrite(p: Pid, i: nat, b: Word) returns (ok: bool)
      requires Valid() && cache.At(i, b) && b in cache.dirty && b < |cache.disk.blocks|
      requires p in ops.active && (b in lh || ops.active[p] < MAXOPBLOCKS)
      modifies this`n, this`lh, this`ops, this`unlogged, block, cache`refs, cache`free, cache.bufs
      ensures Valid() && (ok <==> !Panics(old(ops)))
      ensures old(ops).active[p] < MAXOPBLOCKS ==> ok
      ensures !ok ==> lh == old(lh) && ops == old(ops) && unlogged == old(unlogged)
      ensures ok ==> b in lh && lh == if b in old(lh) then old(lh) else old(lh) + [b]
      ensures ok ==> ops == Next(old(ops), if b in old(lh) then Again(p) else Add(p))
      ensures ok ==> unlogged == old(unlogged) - {b}
    {
      if ops.active[p] < MAXOPBLOCKS { RoomForOne(ops, p); }
      if n >= LOGBLOCKS {
        return false;
      }
      ok := true;
      ListingHeld(|cache.disk.blocks|, start, lh, cache.dirty, holds, unlogged, b);
      var k := Find(b);
      if k < n {
        Absorb(k, b);
      } else {
        Append(p, i, b);
      }
    }

    // ----- disk writes of a commit -----

    /** Copies the cached content of a listed block to a slot. */
    method CopyToSlot(b: nat, slot: nat)
      requires cache.Valid() && cache.free > 0
      requires b in cache.dirty && slot < |cache.disk.blocks| && slot !in cache.dirty
      modifies cache, cache.bufs, cache.disk
      ensures cache.Valid() && cache.refs == old(cache.refs) && cache.free == old(cache.free) && cache.dirty == old(cache.dirty)
      ensures cache.disk.blocks == old(cache.disk.blocks)[slot := cache.dirty[b]]
      ensures cache.disk.writes == old(cache.disk.writes) + [Write(slot, cache.dirty[b])]
    {
      cache.DirtyIsHeld();
      var to, from := cache.CopyBlock(slot, b);
      cache.BrelseTwo(from, to, b, slot);
      MultisetAlgebra(old(cache.refs), slot, b);
    }

    /** The disk has taken the first `k` of the writes. */
    ghost predicate Taken(img: Image, before: seq<Write>, ws: seq<Write>, k: nat)
      reads this, cache, cache.disk
    {
      && k <= |ws| && InRange(|img|, ws)
      && cache.disk.blocks == Apply(img, ws[..k]) && cache.disk.writes == before + ws[..k]
    }

    /** One turn of write_log. */
    method WriteSlot(tail: nat, ghost t: Txn, ghost img: Image, ghost before: seq<Write>)
      requires cache.Valid() && InHeader() && cache.free > 0 && Committable(|img|, start, t) && t.lh == lh
      requires HasLog(img, start) && Cached(t, cache.dirty) && HomesOnly(start, cache.dirty)
      requires tail < n && Taken(img, before, SlotWrites(start, t.datas), tail)
      modifies cache, cache.bufs, cache.disk
      ensures cache.Valid() && cache.refs == old(cache.refs) && cache.free == old(cache.free) && cache.dirty == old(cache.dirty)
      ensures Taken(img, before, SlotWrites(start, t.datas), tail + 1)
    {
      var b: nat := block[tail];
      SlotsNext(img, start, t, cache.dirty, tail);
      ghost var now, done, data := cache.disk.blocks, cache.disk.writes, cache.dirty[block[tail]];
      CopyToSlot(b, start + 1 + tail);
      OneMoreTaken(img, before, SlotWrites(start, t.datas), tail, now, done, Write(start + 1 + tail, data), cache.disk.blocks, cache.disk.writes);
    }

    /** write_log: every listed block's cached content goes to its slot. Before each turn other processes
        may have read any number of blocks; listed blocks are pinned, so what is copied is what the
        operations left in them. */
    method WriteLog(ghost t: Txn)
      requires cache.Valid() && InHeader() && cache.free > 0 && Committable(|cache.disk.blocks|, start, t) && t.lh == lh
      requires HasLog(cache.disk.blocks, start) && Cached(t, cache.dirty) && HomesOnly(start, cache.dirty)
      modifies cache, cache.bufs, cache.disk
      ensures cache.Valid() && cache.refs == old(cache.refs) && cache.free == old(cache.free) && cache.dirty == old(cache.dirty)
      ensures Taken(old(cache.disk.blocks), old(cache.disk.writes), SlotWrites(start, t.datas), |t.lh|)
    {
      for tail := 0 to n
        invariant cache.Valid() && cache.refs == old(cache.refs) && cache.free == old(cache.free) && cache.dirty == old(cache.dirty)
        invariant InHeader() && Taken(old(cache.disk.blocks), old(cache.disk.writes), SlotWrites(start, t.datas), tail)
      {
        cache.Traffic();
        WriteSlot(tail, t, old(cache.disk.blocks), old(cache.disk.writes));
      }
    }

    /** The header block's words for the in-memory header. */
    method EncodeHead(d: Data) returns (r: Data)
      requires InHeader()
      ensures r == WithHead(d, lh)
    {
      r := d[0 := n];
      for i := 0 to n
        invariant r == [n] + lh[..i] + d[1 + i..]
      {
        r := r[1 + i := block[i]];
      }
      assert lh[..n] == lh;
    }

    /** write_head. */
    method WriteHead()
      requires cache.Valid() && InHeader() && cache.free > 0 && start < |cache.disk.blocks| && start !in cache.dirty
      modifies cache, cache.bufs, cache.disk
      ensures cache.Valid() && cache.refs == old(cache.refs) && cache.free == old(cache.free) && cache.dirty == old(cache.dirty)
      ensures var head := WithHead(old(cache.disk.blocks)[start], lh);
        && cache.disk.blocks == old(cache.disk.blocks)[start := head]
        && cache.disk.writes == old(cache.disk.writes) + [Write(start, head)]
    {
      var i := cache.Bread(start);
      cache.HeldBuffer(i, start);
      var head := EncodeHead(cache.bufs[i].data);
      cache.WriteThrough(i, head, start);
      cache.Brelse(i, start);
      assert cache.refs == old(cache.refs);
    }

    /** Copies a slot to the block it belongs to; after a commit, not in recovery, the pin goes too. */
    method CopyHome(slot: nat, b: nat, recovering: bool)
      requires cache.Valid() && cache.free > 0 && (if recovering then cache.free > 1 else b in cache.refs)
      requires slot < |cache.disk.blocks| && b < |cache.disk.blocks| && slot != b && slot !in cache.dirty
      requires recovering ==> b !in cache.dirty
      modifies cache, cache.bufs, cache.disk
      ensures cache.Valid() && cache.free >= old(cache.free)
      ensures cache.refs == if recovering then old(cache.refs) else old(cache.refs) - multiset{b}
      ensures cache.dirty == old(cache.dirty) - {b}
      ensures cache.disk.blocks == old(cache.disk.blocks)[b := old(cache.disk.blocks)[slot]]
      ensures cache.disk.writes == old(cache.disk.writes) + [Write(b, old(cache.disk.blocks)[slot])]
    {
      ghost var refs, free := cache.refs, cache.free;
      var dbuf, lbuf := cache.CopyBlock(b, slot);
      LetGo(lbuf, dbuf, slot, b, recovering, refs, free);
    }

    /** Gives back the two buffers, and after a commit the pin: the references are as before, or one less. */
    method LetGo(lbuf: nat, dbuf: nat, ghost slot: nat, ghost b: nat, recovering: bool, ghost refs: multiset<nat>, ghost free: nat)
      requires cache.Valid() && slot != b && cache.At(lbuf, slot) && cache.At(dbuf, b)
      requires slot !in cache.dirty && b !in cache.dirty && (recovering || b in refs)
      requires cache.refs == refs + multiset{b} + multiset{slot}
      requires free <= cache.free + (if b in refs then 0 else 1) + (if slot in refs then 0 else 1)
      modifies cache`order, cache`moved, cache`clock, cache`refs, cache`free, cache.bufs
      ensures cache.Valid() && cache.free >= free
      ensures cache.refs == if recovering then refs else refs - multiset{b}
    {
      if !recovering {
        cache.Bunpin(dbuf, b);
      }
      cache.BrelseTwo(lbuf, dbuf, slot, b);
      MultisetAlgebra(refs, b, slot);
    }

    /** Where install_trans stands: the first `k` blocks are home. */
    ghost predicate Installing(t: Txn, recovering: bool, k: nat)
      reads this, cache
    {
      cache.free > (if recovering then 1 else 0) && HomeSoFar(t, start, cache.dirty, cache.refs, holds, recovering, k)
    }

    method InstallOne(tail: nat, recovering: bool, ghost t: Txn, ghost img: Image, ghost before: seq<Write>)
      requires cache.Valid() && InHeader() && Committable(|img|, start, t) && t.lh == lh && InSlots(img, start, t)
      requires tail < n && Installing(t, recovering, tail) && Taken(img, before, InstallWrites(lh, t.datas), tail)
      modifies cache, cache.bufs, cache.disk
      ensures cache.Valid() && Installing(t, recovering, tail + 1) && Taken(img, before, InstallWrites(lh, t.datas), tail + 1)
      ensures cache.free >= old(cache.free)
      ensures recovering ==> cache.refs == old(cache.refs)
    {
      var b: nat := block[tail];
      InstallsNext(img, start, t, tail);
      SlotStays(img, start, t, tail);
      NextIsHome(t, start, cache.dirty, cache.refs, holds, recovering, tail);
      CopyHome(start + 1 + tail, b, recovering);
    }

    /** install_trans: every slot goes to the block it belongs to. After a commit the blocks' pins and
        their unwritten contents are gone; in recovery there are none. */
    method InstallTrans(recovering: bool, ghost t: Txn)
      requires cache.Valid() && InHeader() && Committable(|cache.disk.blocks|, start, t) && t.lh == lh
      requires InSlots(cache.disk.blocks, start, t) && Installing(t, recovering, 0)
      modifies cache, cache.bufs, cache.disk
      ensures cache.Valid() && Installing(t, recovering, |lh|)
      ensures cache.free >= old(cache.free)
      ensures recovering ==> cache.refs == old(cache.refs)
      ensures Taken(old(cache.disk.blocks), old(cache.disk.writes), InstallWrites(lh, t.datas), |lh|)
    {
      for tail := 0 to n
        invariant cache.Valid() && InHeader() && Installing(t, recovering, tail)
        invariant cache.free >= old(cache.free)
        invariant recovering ==> cache.refs == old(cache.refs)
        invariant Taken(old(cache.disk.blocks), old(cache.disk.writes), InstallWrites(lh, t.datas), tail)
      {
        InstallOne(tail, recovering, t, old(cache.disk.blocks), old(cache.disk.writes));
      }
    }

    // ----- commit -----

    /** What a commit writes: the listed blocks, with what the operations left in them. */
    ghost predicate IsPending(t: Txn)
      reads this, cache
    {
      t.lh == lh && Cached(t, cache.dirty)
    }

    /** The disk has taken exactly these writes. */
    ghost predicate Wrote(img: Image, before: seq<Write>, ws: seq<Write>)
      reads this, cache, cache.disk
    {
      Became(img, before, ws, cache.disk.blocks, cache.disk.writes)
    }

    /** Slots and header: the transaction becomes durable. */
    method Mark(ghost t: Txn)
      requires cache.Valid() && InHeader() && lh != [] && cache.free > 0 && IsPending(t) && Accounted(cache.refs, holds, lh)
      requires HomesOnly(start, cache.dirty) && (forall b :: b in cache.dirty ==> b in lh) && Committable(|cache.disk.blocks|, start, t) && HasLog(cache.disk.blocks, start)
      modifies cache, cache.bufs, cache.disk
      ensures cache.Valid() && cache.dirty == old(cache.dirty) && cache.free == old(cache.free)
      ensures Installing(t, false, 0) && InSlots(cache.disk.blocks, start, t)
      ensures cache.disk.blocks == Marked(old(cache.disk.blocks), start, t)
      ensures cache.disk.writes == old(cache.disk.writes) + FirstWrites(old(cache.disk.blocks)[start], start, t)
    {
      ghost var img, before := cache.disk.blocks, cache.disk.writes;
      WriteLog(t);     // modified blocks from the cache to the log
      ghost var slotted, between := cache.disk.blocks, cache.disk.writes;
      WriteHead();     // the real commit
      FirstHalf(img, before, start, t, slotted, between, cache.disk.blocks, cache.disk.writes);
      NoneIsHome(t, start, cache.dirty, cache.refs, holds);
    }

    /** Homes and header: the transaction is installed and the log is clear again. */
    method InstallAndClear(recovering: bool, ghost t: Txn)
      requires cache.Valid() && InHeader() && Committable(|cache.disk.blocks|, start, t) && t.lh == lh
      requires InSlots(cache.disk.blocks, start, t) && Installing(t, recovering, 0)
      modifies this`n, this`lh, cache, cache.bufs, cache.disk
      ensures cache.Valid() && InHeader() && lh == []
      ensures cache.free >= old(cache.free) && cache.dirty == map[]
      ensures if recovering then cache.refs == old(cache.refs) else Accounted(cache.refs, holds, [])
      ensures Wrote(old(cache.disk.blocks), old(cache.disk.writes), LastWrites(old(cache.disk.blocks)[start], start, t))
    {
      ghost var img, before := cache.disk.blocks, cache.disk.writes;
      InstallTrans(recovering, t);
      AllAreHome(t, start, cache.dirty, cache.refs, holds, recovering);
      ghost var homed, between := cache.disk.blocks, cache.disk.writes;
      n, lh := 0, [];
      WriteHead();
      SecondHalf(img, before, start, t, homed, between, cache.disk.blocks, cache.disk.writes);
    }

    /** The second half of a commit that began on disk `img`. */
    method InstallMarked(ghost t: Txn, ghost img: Image, ghost before: seq<Write>)
      requires cache.Valid() && InHeader() && t.lh == lh && lh != [] && HasLog(img, start) && Committable(|img|, start, t)
      requires Installing(t, false, 0) && InSlots(cache.disk.blocks, start, t)
      requires cache.disk.blocks == Marked(img, start, t) && cache.disk.writes == before + FirstWrites(img[start], start, t)
      modifies this`n, this`lh, cache, cache.bufs, cache.disk
      ensures cache.Valid() && InHeader() && lh == [] && Accounted(cache.refs, holds, []) && cache.free >= old(cache.free)
      ensures cache.dirty == map[]
      ensures Wrote(img, before, CommitWrites(img[start], start, t))
    {
      ghost var mid, between := cache.disk.blocks, cache.disk.writes;
      InstallAndClear(false, t);
      CommitInTwo(img, before, start, t, mid, between, cache.disk.blocks, cache.disk.writes);
    }

    /** commit, when there is something to commit: slots, header, homes, header, and nothing else. */
    method CommitBlocks(ghost t: Txn)
      requires cache.Valid() && InHeader() && lh != [] && cache.free > 0 && IsPending(t) && Accounted(cache.refs, holds, lh)
      requires Committable(|cache.disk.blocks|, start, t) && Clear(cache.disk.blocks, start)
      requires forall b :: b in cache.dirty <==> b in lh
      modifies this`n, this`lh, cache, cache.bufs, cache.disk
      ensures cache.Valid() && InHeader() && lh == [] && cache.dirty == map[] && Accounted(cache.refs, holds, [])
      ensures cache.free >= old(cache.free)
      ensures Wrote(old(cache.disk.blocks), old(cache.disk.writes), CommitWrites(old(cache.disk.blocks)[start], start, t))
    {
      ghost var img, before := cache.disk.blocks, cache.disk.writes;
      Mark(t);
      InstallMarked(t, img, before);
    }

    /** The disk side of commit; an empty transaction writes nothing. */
    method CommitIfAny(ghost t: Txn)
      requires cache.Valid() && InHeader() && cache.free > 0 && IsPending(t) && Accounted(cache.refs, holds, lh)
      requires Committable(|cache.disk.blocks|, start, t) && Clear(cache.disk.blocks, start)
      requires forall b :: b in cache.dirty <==> b in lh
      modifies this`n, this`lh, cache, cache.bufs, cache.disk
      ensures cache.Valid() && InHeader() && lh == [] && cache.dirty == map[] && Accounted(cache.refs, holds, [])
      ensures cache.free >= old(cache.free)
      ensures Wrote(old(cache.disk.blocks), old(cache.disk.writes), CommitWrites(old(cache.disk.blocks)[start], start, t))
      ensures Clear(cache.disk.blocks, start) && Overwritten(old(cache.disk.blocks), start, t, cache.disk.blocks)
    {
      ghost var img, before := cache.disk.blocks, cache.disk.writes;
      if n > 0 {
        CommitBlocks(t);
      } else {
        NothingToCommit(img, before, start, t);
      }
      CommitDone(img, before, start, t, cache.disk.blocks, cache.disk.writes);
    }

    /** commit. Afterwards the home blocks hold what the operations left, the log is clear, and every
        pin has been given back. */
    method Commit() returns (ghost t: Txn)
      requires Valid() && unlogged == {} && cache.free > 0
      modifies this`n, this`lh, cache, cache.bufs, cache.disk
      ensures cache.Valid() && InHeader() && lh == [] && cache.dirty == map[] && Accounted(cache.refs, holds, [])
      ensures cache.free >= old(cache.free)
      ensures IsTxn(t, old(lh), old(cache.dirty))
      ensures Wrote(old(cache.disk.blocks), old(cache.disk.writes), CommitWrites(old(cache.disk.blocks)[start], start, t))
      ensures Clear(cache.disk.blocks, start) && Overwritten(old(cache.disk.blocks), start, t, cache.disk.blocks)
    {
      AllListed(|cache.disk.blocks|, start, lh, cache.dirty, holds);
      t := PendingTxn(lh, cache.dirty);
      CommitIfAny(t);
    }

    /** end_op up to the release of the lock: who ends last commits. The panic for a commit already
        under way cannot happen. */
    method LeaveOp(p: Pid) returns (last: bool)
      requires Valid() && p in ops.active && (|ops.active| == 1 ==> unlogged == {})
      modifies this`outstanding, this`committing, this`ops
      ensures Valid() && ops == Next(old(ops), End(p))
      ensures last <==> committing
      ensures last ==> unlogged == {}
    {
      EndIsTallied(ops, outstanding, committing, n, p);
      outstanding := outstanding - 1;
      last := false;
      if outstanding == 0 {
        last := true;
        committing := true;
      }
      ops := Next(ops, End(p));
    }

    /** end_op after commit: operations may begin again, and whoever slept is awake. */
    method Reopen()
      requires cache.Valid() && InHeader() && lh == [] && cache.dirty == map[] && Accounted(cache.refs, holds, []) && unlogged == {}
      requires Clear(cache.disk.blocks, start) && Tallied(ops, outstanding, committing, ops.n) && committing
      modifies this`committing, this`ops
      ensures Valid() && ops == old(ops).(n := 0, committing := false, asleep := {})
    {
      InvKept(ops, Step.Committed);
      InvKept(Next(ops, Step.Committed), Done);
      NothingListed(|cache.disk.blocks|, start, holds);
      committing := false;
      ops := Next(Next(ops, Step.Committed), Done);
    }

    /** end_op: when the last operation ends, everything any of them logged becomes durable at once. */
    method EndOp(p: Pid) returns (ghost t: Txn)
      requires Valid() && p in ops.active && (|ops.active| == 1 ==> unlogged == {}) && cache.free > 0
      modifies this`n, this`lh, this`ops, this`outstanding, this`committing, cache, cache.bufs, cache.disk
      ensures Valid()
      ensures |old(ops).active| > 1 ==>
                && ops == Next(old(ops), End(p)) && lh == old(lh) && cache.dirty == old(cache.dirty)
                && cache.disk.writes == old(cache.disk.writes) && cache.disk.blocks == old(cache.disk.blocks)
      ensures |old(ops).active| == 1 ==>
                && ops == IDLE
                && lh == [] && cache.dirty == map[] && IsTxn(t, old(lh), old(cache.dirty))
                && Wrote(old(cache.disk.blocks), old(cache.disk.writes), CommitWrites(old(cache.disk.blocks)[start], start, t))
                && Overwritten(old(cache.disk.blocks), start, t, cache.disk.blocks)
    {
      LastOne(ops, p);
      var last := LeaveOp(p);
      t := Txn([], []);
      if last {
        t := Commit();
        Reopen();
      }
    }

    /** commit reads the header and the slots through the cache, so it needs a buffer the transaction
        does not pin: with NBUF buffers and no other holder it has one unless the log is full. */
    lemma RoomToCommit()
      requires Valid() && holds == multiset{} && cache.bufs.Length == NBUF
      ensures cache.free > 0 <==> n < LOGBLOCKS
    {
      var held := set b: nat | b in lh;
      forall b: nat ensures b in held <==> b in cache.refs {
        assert cache.refs[b] == holds[b] + Pins(lh, b);
      }
      FreeAndHeld(cache.Now(), cache.refs, cache.free, held);
      DistinctCount(lh, held);
    }

    // ----- recovery -----

    /** read_head: the on-disk header becomes the in-memory one. */
    method ReadHead()
      requires cache.Valid() && block.Length == LOGBLOCKS && cache.free > 0 && cache.dirty == map[]
      requires start < |cache.disk.blocks| && HeadCount(cache.disk.blocks[start]) <= LOGBLOCKS
      modifies this`n, this`lh, block, cache`index, cache`order, cache`moved, cache`clock, cache`refs, cache`free, cache.bufs
      ensures cache.Valid() && InHeader() && lh == Head(cache.disk.blocks[start])
      ensures cache.refs == old(cache.refs) && cache.free == old(cache.free)
    {
      var i := cache.Bread(start);
      cache.HeldBuffer(i, start);
      DecodeHead(cache.bufs[i].data);
      cache.Brelse(i, start);
      assert cache.refs == old(cache.refs);
    }

    method DecodeHead(d: Data)
      requires block.Length == LOGBLOCKS && HeadCount(d) <= LOGBLOCKS
      modifies this`n, this`lh, block
      ensures InHeader() && lh == Head(d)
    {
      n := d[0];
      for i := 0 to n
        invariant n == d[0] && block[..i] == d[1..1 + i]
      {
        block[i] := d[1 + i];
      }
      lh := Head(d);
    }

    /** recover_from_log, at boot: whatever was committed is installed, and the log is clear. */
    method RecoverFromLog()
      requires cache.Valid() && cache.refs == multiset{} && cache.dirty == map[] && cache.free > 1 && block.Length == LOGBLOCKS
      requires ops == IDLE && holds == multiset{} && unlogged == {} && outstanding == 0 && !committing
      requires Recoverable(cache.disk.blocks, start)
      modifies this`n, this`lh, block, cache, cache.bufs, cache.disk
      ensures Valid() && lh == [] && cache.dirty == map[]
      ensures Wrote(old(cache.disk.blocks), old(cache.disk.writes), RecoveryWrites(old(cache.disk.blocks), start))
    {
      ReadHead();
      ghost var img := cache.disk.blocks;
      ghost var t := Logged(img, start);
      LoggedIsInSlots(img, start);
      InstallAndClear(true, t);
      NothingListed(|img|, start, holds);
      ClearAfterRecovery(img, start, cache.disk.blocks);
    }
  }
}