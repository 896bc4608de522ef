/** The writer of a table file. (projects/06-pebbledb/src/sstable/writer.cpp) */
module TableWriter {
  import opened Codec
  import opened BloomFilter
  import opened TableFile

  datatype Status = Ok | InvalidArgument | IOError

  function Keys(es: seq<Entry>): seq<Bytes> {
    if es == [] then [] else Keys(es[..|es| - 1]) + [es[|es| - 1].key]
  }

  lemma {:induction false} KeyAt(es: seq<Entry>, i: nat)
    requires i < |es|
    ensures |Keys(es)| == |es| && Keys(es)[i] == es[i].key
    decreases |es|
  {
    if i < |es| - 1 {
      KeyAt(es[..|es| - 1], i);
    } else if i > 0 {
      KeyAt(es[..|es| - 1], i - 1);
    }
  }

  lemma KeysAsMany(es: seq<Entry>)
    ensures |Keys(es)| == |es|
  {
    if es != [] { KeyAt(es, 0); }
  }

  // ----- what has been added, flushed and counted -----

  /** The entries so far: their keys increase, and they fit the format. */
  predicate InOrder(es: seq<Entry>)
    decreases |es|
  {
    es != [] ==>
      var n := |es| - 1;
      InOrder(es[..n]) && Fits(es[n]) && (n > 0 ==> Less(es[n - 1].key, es[n].key))
  }

  lemma {:induction false} InOrderAt(es: seq<Entry>, i: nat, j: nat)
    requires InOrder(es) && i < j < |es|
    ensures Less(es[i].key, es[j].key)
    decreases |es|
  {
    var n := |es| - 1;
    if j < n {
      InOrderAt(es[..n], i, j);
    } else if i < n - 1 {
      InOrderAt(es[..n], i, n - 1);
      LessThrough(es[i].key, es[n - 1].key, es[n].key);
    }
  }

  lemma {:induction false} InOrderFits(es: seq<Entry>, i: nat)
    requires InOrder(es) && i < |es|
    ensures Fits(es[i])
    decreases |es|
  {
    if i < |es| - 1 { InOrderFits(es[..|es| - 1], i); }
  }

  lemma InOrderIs(es: seq<Entry>)
    requires InOrder(es)
    ensures Increasing(es) && AllFit(es)
  {
    forall i, j | 0 <= i < j < |es| ensures Less(es[i].key, es[j].key) { InOrderAt(es, i, j); }
    forall i | 0 <= i < |es| ensures Fits(es[i]) { InOrderFits(es, i); }
  }

  lemma OneMoreInOrder(es: seq<Entry>, e: Entry)
    requires InOrder(es) && Fits(e) && (es != [] ==> Less(LastKey(es), e.key))
    ensures InOrder(es + [e])
  {
    assert (es + [e])[..|es|] == es;
  }

  /** What has reached the file, and the index of it. */
  datatype Flushed = Flushed(file: Bytes, index: Bytes, offset: nat)

  function FlushedOf(crc: Checksum, bs: seq<seq<Entry>>): Flushed
    requires NoneEmpty(bs)
  {
    Flushed(DataBytes(crc, bs), EncodeIndex(Index(crc, bs)), |DataBytes(crc, bs)|)
  }

  /** The block being filled. */
  datatype Filling = Filling(bytes: Bytes, some: bool, last: Bytes)

  predicate Fills(f: Filling, es: seq<Entry>) {
    f.bytes == EncodeEntries(es) && (f.some <==> es != []) && (es != [] ==> f.last == LastKey(es))
  }

  datatype Count = Count(n: nat, some: bool, last: Bytes, keys: seq<Bytes>)

  predicate Counts(c: Count, es: seq<Entry>, bitsPerKey: nat) {
    c.n == |es| && (c.some <==> es != []) && (es != [] ==> c.last == LastKey(es)) && c.keys == if bitsPerKey > 0 then Keys(es) else []
  }

  function FilledMore(f: Filling, e: Entry): Filling {
    Filling(f.bytes + EncodeEntry(e), true, e.key)
  }

  lemma FillsMore(f: Filling, es: seq<Entry>, e: Entry)
    requires Fills(f, es)
    ensures Fills(FilledMore(f, e), es + [e])
  {
    assert (es + [e])[..|es|] == es;
  }

  function CountedMore(c: Count, e: Entry, bitsPerKey: nat): Count {
    Count(c.n + 1, true, e.key, if bitsPerKey > 0 then c.keys + [e.key] else c.keys)
  }

  lemma CountsMore(c: Count, es: seq<Entry>, e: Entry, bitsPerKey: nat)
    requires Counts(c, es, bitsPerKey)
    ensures Counts(CountedMore(c, e, bitsPerKey), es + [e], bitsPerKey)
  {
    assert (es + [e])[..|es|] == es;
  }

  /** The block that has been filled goes to the file and into the index. */
  function FlushedMore(crc: Checksum, f: Flushed, x: Filling): Flushed {
    var block := FinishBlock(crc, x.bytes);
    Flushed(f.file + block, f.index + EncodeIndexEntry(IndexEntry(x.last, Handle(f.offset, |block|))), f.offset + |block|)
  }

  lemma FlushedIsMore(crc: Checksum, bs: seq<seq<Entry>>, b: seq<Entry>, x: Filling)
    requires NoneEmpty(bs) && b != [] && Fills(x, b)
    ensures NoneEmpty(bs + [b]) && FlushedOf(crc, bs + [b]) == FlushedMore(crc, FlushedOf(crc, bs), x)
  {
    assert (bs + [b])[..|bs|] == bs;
    assert Index(crc, bs + [b])[..|bs|] == Index(crc, bs);
  }

  lemma FlattenMore(bs: seq<seq<Entry>>, b: seq<Entry>)
    ensures Flatten(bs + [b]) == Flatten(bs) + b
  {
    assert (bs + [b])[..|bs|] == bs;
  }

  /** A finished file of `all`. */
  predicate FileOf(crc: Checksum, bs: seq<seq<Entry>>, all: seq<Entry>, filter: Bytes, file: Bytes) {
    NoneEmpty(bs) && Flatten(bs) == all && file == FileBytes(crc, bs, filter) && Passes(crc, all, filter)
  }

  /** Filter, index and footer behind the data blocks. */
  function Finished(crc: Checksum, f: Flushed, n: nat, filter: Bytes): Bytes {
    var x := FinishBlock(crc, f.index);
    f.file + FilterBytes(crc, filter) + x + EncodeFooter(crc, FooterAt(f.offset, |FilterBytes(crc, filter)|, |x|, n))
  }

  lemma FinishedIsFile(crc: Checksum, bs: seq<seq<Entry>>, filter: Bytes)
    requires NoneEmpty(bs)
    ensures Finished(crc, FlushedOf(crc, bs), |Flatten(bs)|, filter) == FileBytes(crc, bs, filter)
  {
  }

  /** The file opens, ForEachEntry gives exactly these entries, and Get finds each key of theirs and no other. */
  predicate ReadsAs(crc: Checksum, file: Bytes, all: seq<Entry>, key: Bytes) {
    match OpenTable(crc, file)
    case None => false
    case Some(t) => AllEntries(crc, file, t.index) == Some(all) && Usable(t.filter) && Finds(all, key, Get(crc, file, t, key))
  }

  predicate Finds(all: seq<Entry>, key: Bytes, r: Option<Option<Entry>>) {
    r.Some? && Holds(all, key, r.value)
  }

  /** What a finished file is worth: it reads as what was added. */
  lemma FinishedFileReads(crc: Checksum, bs: seq<seq<Entry>>, all: seq<Entry>, filter: Bytes, file: Bytes, key: Bytes)
    requires FileOf(crc, bs, all, filter, file) && InOrder(all) && |file| < U64 && |all| < U64
    ensures ReadsAs(crc, file, all, key)
  {
    InOrderIs(all);
    BlocksFit(bs);
    FileIsReadBack(crc, bs, filter);
    GetFinds(crc, bs, filter, key);
    ReadsAll(crc, file, Table(Index(crc, bs), filter), all, key);
  }

  lemma ReadsAll(crc: Checksum, file: Bytes, t: Table, all: seq<Entry>, key: Bytes)
    requires OpenTable(crc, file) == Some(t) && AllEntries(crc, file, t.index) == Some(all)
    requires Usable(t.filter) && Finds(all, key, Get(crc, file, t, key))
    ensures ReadsAs(crc, file, all, key)
  {
  }

  lemma BlocksFit(bs: seq<seq<Entry>>)
    requires AllFit(Flatten(bs))
    ensures AllBlocksFit(bs)
  {
    forall i | 0 <= i < |bs| ensures AllFit(bs[i]) {
      BlockInFlatten(bs, i);
      BlockFits(Flatten(bs), |Flatten(bs[..i])|, bs[i]);
    }
  }

  lemma BlockFits(all: seq<Entry>, at: nat, b: seq<Entry>)
    requires AllFit(all) && at + |b| <= |all| && all[at..at + |b|] == b
    ensures AllFit(b)
  {
    forall k | 0 <= k < |b| ensures Fits(b[k]) { assert b[k] == all[at + k]; }
  }

  // ----- the writer's fields and what has been added -----

  /** The flushed blocks, the entries of the block being filled, and everything added. */
  datatype Past = Past(blocks: seq<seq<Entry>>, current: seq<Entry>, all: seq<Entry>)

  /** What the fields hold of what has been added; `intact` if no append has failed, `open` before Finish. */
  ghost predicate FieldsHold(crc: Checksum, bitsPerKey: nat, d: Flushed, f: Filling, c: Count, p: Past, intact: bool, open: bool) {
    && InOrder(p.all) && Counts(c, p.all, bitsPerKey) && NoneEmpty(p.blocks) && p.all == Flatten(p.blocks) + p.current
    && (open ==> Fills(f, p.current)) && (intact && open ==> d == FlushedOf(crc, p.blocks))
  }

  /** The same as one fact, which the writer's methods carry along; only the lemmas below look inside. */
  ghost predicate Kept(crc: Checksum, bitsPerKey: nat, d: Flushed, f: Filling, c: Count, p: Past, intact: bool, open: bool) {
    FieldsHold(crc, bitsPerKey, d, f, c, p, intact, open)
  }

  function PastMore(p: Past, e: Entry): Past {
    Past(p.blocks, p.current + [e], p.all + [e])
  }

  lemma Regroup(a: seq<Entry>, b: seq<Entry>, e: Entry)
    ensures a + b + [e] == a + (b + [e])
  {
  }

  function PastFlushed(p: Past): Past {
    Past(p.blocks + [p.current], [], p.all)
  }

  lemma StartKeeps(crc: Checksum, bitsPerKey: nat)
    ensures Kept(crc, bitsPerKey, Flushed([], [], 0), Filling([], false, []), Count(0, false, [], []), Past([], [], []), true, true)
  {
    assert Flatten([]) == [];
  }

  lemma MoreKeeps(crc: Checksum, bitsPerKey: nat, d: Flushed, f: Filling, c: Count, p: Past, intact: bool, e: Entry)
    requires Kept(crc, bitsPerKey, d, f, c, p, intact, true) && Fits(e) && (p.all != [] ==> Less(LastKey(p.all), e.key))
    ensures Kept(crc, bitsPerKey, d, FilledMore(f, e), CountedMore(c, e, bitsPerKey), PastMore(p, e), intact, true)
  {
    OneMoreInOrder(p.all, e);
    FillsMore(f, p.current, e);
    CountsMore(c, p.all, e, bitsPerKey);
    Regroup(Flatten(p.blocks), p.current, e);
  }

  lemma FlushKeeps(crc: Checksum, bitsPerKey: nat, d: Flushed, f: Filling, c: Count, p: Past, intact: bool)
    requires Kept(crc, bitsPerKey, d, f, c, p, intact, true) && f.some
    ensures Kept(crc, bitsPerKey, FlushedMore(crc, d, f), Filling([], false, f.last), c, PastFlushed(p), intact, true)
  {
    FlattenMore(p.blocks, p.current);
    FlushedIsMore(crc, p.blocks, p.current, f);
    assert Flatten(p.blocks) + p.current + [] == Flatten(p.blocks) + p.current;
  }

  /** After a failed append, and after Finish, what has reached the file is no longer known. */
  lemma FailedKeeps(crc: Checksum, bitsPerKey: nat, d: Flushed, d': Flushed, f: Filling, c: Count, p: Past, intact: bool, open: bool, open': bool)
    requires Kept(crc, bitsPerKey, d, f, c, p, intact, open) && (open' ==> open)
    ensures Kept(crc, bitsPerKey, d', f, c, p, false, open') && (!open' ==> Kept(crc, bitsPerKey, d', f, c, p, intact, open'))
  {
  }

  lemma KeptCount(crc: Checksum, bitsPerKey: nat, d: Flushed, f: Filling, c: Count, p: Past, intact: bool, open: bool)
    requires Kept(crc, bitsPerKey, d, f, c, p, intact, open)
    ensures InOrder(p.all) && Counts(c, p.all, bitsPerKey)
  {
  }

  lemma KeptLast(crc: Checksum, bitsPerKey: nat, d: Flushed, f: Filling, c: Count, p: Past, intact: bool, open: bool)
    requires Kept(crc, bitsPerKey, d, f, c, p, intact, open)
    ensures (c.some <==> p.all != []) && (p.all != [] ==> c.last == LastKey(p.all))
  {
  }

  /** The filter of all keys. */
  lemma FilterPasses(crc: Checksum, es: seq<Entry>, keys: seq<Bytes>, filter: Bytes)
    requires Usable(filter) && (filter == [] || keys == Keys(es)) && forall j :: 0 <= j < |keys| ==> MayMatch(crc, keys[j], filter)
    ensures Passes(crc, es, filter)
  {
    forall i | 0 <= i < |es| ensures MayMatch(crc, es[i].key, filter) {
      KeyAt(es, i);
    }
  }

  lemma FinishKeeps(crc: Checksum, bitsPerKey: nat, d: Flushed, f: Filling, c: Count, p: Past, filter: Bytes)
    requires Kept(crc, bitsPerKey, d, f, c, p, true, true) && !f.some && Passes(crc, p.all, filter)
    ensures FileOf(crc, p.blocks, p.all, filter, Finished(crc, d, c.n, filter))
  {
    assert p.current == [] && Flatten(p.blocks) + [] == Flatten(p.blocks);
    FinishedIsFile(crc, p.blocks, filter);
  }

  // ----- the writer -----

  /** The number of bits of the filter is not cut to nothing. */
  predicate FilterIsUsable(keys: nat, bitsPerKey: nat) {
    keys > 0 && bitsPerKey > 0 ==> Divisor(FilterBits(keys, bitsPerKey)) > 0
  }

  /** Blocks are cut where they reach the target size: the block with the new entry has been flushed if it has
      reached it, and is still being filled if not. */
  ghost predicate Cut(target: nat, was: Past, now: Past, before: Filling, after: Filling, unflushed: bool, e: Entry) {
    if |FilledMore(before, e).bytes| >= target then now == PastFlushed(PastMore(was, e)) && !after.some
    else now == PastMore(was, e) && after == FilledMore(before, e) && unflushed
  }

  lemma CutDone(target: nat, was: Past, before: Filling, after: Filling, e: Entry)
    requires |FilledMore(before, e).bytes| >= target && !after.some
    ensures forall unflushed :: Cut(target, was, PastFlushed(PastMore(was, e)), before, after, unflushed, e)
  {
  }

  lemma NotCut(target: nat, was: Past, before: Filling, e: Entry)
    requires |FilledMore(before, e).bytes| < target
    ensures Cut(target, was, PastMore(was, e), before, FilledMore(before, e), true, e)
  {
  }

  /** The file is a finished table of exactly what was added. */
  ghost predicate IsTable(crc: Checksum, p: Past, file: Bytes) {
    exists filter :: FileOf(crc, p.blocks, p.all, filter, file)
  }

  lemma FinishedIsTable(crc: Checksum, bitsPerKey: nat, d: Flushed, f: Filling, c: Count, p: Past, filter: Bytes)
    requires Kept(crc, bitsPerKey, d, f, c, p, true, true) && !f.some && Passes(crc, p.all, filter)
    ensures IsTable(crc, p, Finished(crc, d, c.n, filter))
  {
    FinishKeeps(crc, bitsPerKey, d, f, c, p, filter);
  }

  /** A tombstone has no value. */
  function EntryFor(key: Bytes, value: Bytes, seqno: nat, tomb: bool): Entry {
    Entry(key, seqno, tomb, if tomb then [] else value)
  }

  class Writer {
    const crc: Checksum
    const targetBlockSize: nat
    const filterBitsPerKey: nat
    const probes: nat
    var flushed: Flushed
    var filling: Filling
    var count: Count
    var finished: bool
    ghost var past: Past
    ghost var intact: bool   // no append to the file has failed
    ghost var synced: bool   // all of the file is durable
    ghost var failures: nat  // failed appends and syncs

    ghost predicate Valid()
      reads this
    {
      1 <= probes <= 30 && Kept(crc, filterBitsPerKey, flushed, filling, count, past, intact, !finished)
    }

    constructor (crc: Checksum, targetBlockSize: nat, filterBitsPerKey: nat, probes: nat)
      requires 1 <= probes <= 30
      ensures Valid() && past.all == [] && !finished && intact
    {
      this.crc, this.targetBlockSize, this.filterBitsPerKey, this.probes := crc, targetBlockSize, filterBitsPerKey, probes;
      flushed, filling, count, finished := Flushed([], [], 0), Filling([], false, []), Count(0, false, [], []), false;
      past, intact, synced, failures := Past([], [], []), true, false, 0;
      StartKeeps(crc, filterBitsPerKey);
    }

    /** PosixFile::Append: all of it, or an error and perhaps some of it. */
    method AppendFile(b: Bytes) returns (ok: bool)
      modifies this`flushed, this`intact, this`failures
      ensures flushed == old(flushed).(file := flushed.file) && failures == old(failures) + if ok then 0 else 1
      ensures ok ==> flushed.file == old(flushed).file + b && intact == old(intact)
      ensures !ok ==> !intact
    {
      ok := *;
      var some: nat :| some <= |b|;
      flushed := flushed.(file := flushed.file + if ok then b else b[..some]);
      intact, failures := intact && ok, failures + if ok then 0 else 1;
    }

    /** PosixFile::Sync. */
    method SyncFile() returns (ok: bool)
      modifies this`synced, this`failures
      ensures synced == ok && failures == old(failures) + if ok then 0 else 1
    {
      ok := *;
      synced, failures := ok, failures + if ok then 0 else 1;
    }

    /** Adds an entry; refused when the key is not above all before it, or after Finish. */
    method Add(key: Bytes, value: Bytes, seqno: nat, tomb: bool) returns (s: Status)
      requires Valid() && seqno < U64 && |key| < U32 && |value| < U32
      modifies this
      ensures Valid() && finished == old(finished)
      ensures s == InvalidArgument <==> old(finished) || (old(past).all != [] && !Less(LastKey(old(past).all), key))
      ensures s == InvalidArgument ==> past == old(past) && flushed == old(flushed) && intact == old(intact)
      ensures s != InvalidArgument ==> past.all == old(past).all + [EntryFor(key, value, seqno, tomb)]
      ensures s == Ok ==> intact == old(intact)
      ensures s == IOError ==> !intact && failures > old(failures)
      ensures s == Ok ==> Cut(targetBlockSize, old(past), past, old(filling), filling, flushed == old(flushed), EntryFor(key, value, seqno, tomb))
    {
      KeptLast(crc, filterBitsPerKey, flushed, filling, count, past, intact, !finished);
      if finished || (count.some && !Less(count.last, key)) {
        return InvalidArgument;
      }
      s := AddEntry(EntryFor(key, value, seqno, tomb));
    }

    /** Add, once nothing speaks against it. */
    method AddEntry(e: Entry) returns (s: Status)
      requires Valid() && !finished && Fits(e) && (past.all != [] ==> Less(LastKey(past.all), e.key))
      modifies this`flushed, this`filling, this`count, this`past, this`intact, this`failures
      ensures Valid() && s != InvalidArgument && past.all == old(past).all + [e] && failures == old(failures) + if s == Ok then 0 else 1
      ensures s == Ok ==> intact == old(intact) && Cut(targetBlockSize, old(past), past, old(filling), filling, flushed == old(flushed), e)
      ensures s != Ok ==> !intact
    {
      TakeEntry(e);
      s := FlushWhenFull(old(past), old(filling), old(flushed), e);
    }

    /** The end of Add: a block that has reached the target size is flushed. */
    method FlushWhenFull(ghost was: Past, ghost before: Filling, ghost d: Flushed, ghost e: Entry) returns (s: Status)
      requires Valid() && !finished && past == PastMore(was, e) && filling == FilledMore(before, e) && flushed == d
      modifies this`flushed, this`filling, this`past, this`intact, this`failures
      ensures Valid() && s != InvalidArgument && past.all == old(past).all && failures == old(failures) + if s == Ok then 0 else 1
      ensures s == Ok ==> intact == old(intact) && Cut(targetBlockSize, was, past, before, filling, flushed == d, e)
      ensures s != Ok ==> !intact
    {
      if |filling.bytes| >= targetBlockSize {
        s := FlushCurrentBlock();
        if s == Ok { CutDone(targetBlockSize, was, before, filling, e); }
      } else {
        s := Ok;
        NotCut(targetBlockSize, was, before, e);
      }
    }

    /** The entry joins the current block. */
    method TakeEntry(e: Entry)
      requires Valid() && !finished && Fits(e) && (past.all != [] ==> Less(LastKey(past.all), e.key))
      modifies this`filling, this`count, this`past
      ensures Valid() && past == PastMore(old(past), e) && filling == FilledMore(old(filling), e)
    {
      MoreKeeps(crc, filterBitsPerKey, flushed, filling, count, past, intact, e);
      filling, count, past := FilledMore(filling, e), CountedMore(count, e, filterBitsPerKey), PastMore(past, e);
    }

    /** The current block, if it has entries, goes to the file and into the index. */
    method FlushCurrentBlock() returns (s: Status)
      requires Valid() && !finished
      modifies this`flushed, this`filling, this`past, this`intact, this`failures
      ensures Valid() && s != InvalidArgument && past.all == old(past).all && failures == old(failures) + if s == Ok then 0 else 1
      ensures s == Ok ==> intact == old(intact) && !filling.some && past == if old(filling).some then PastFlushed(old(past)) else old(past)
      ensures s != Ok ==> !intact
    {
      if !filling.some {
        return Ok;
      }
      ghost var was, whole := flushed, intact;
      FlushKeeps(crc, filterBitsPerKey, flushed, filling, count, past, intact);
      var block := FinishBlock(crc, filling.bytes);
      var ok := AppendFile(block);
      if !ok {
        FailedKeeps(crc, filterBitsPerKey, was, flushed, filling, count, past, whole, true, true);
        return IOError;
      }
      var entry := IndexEntry(filling.last, Handle(flushed.offset, |block|));
      flushed := Flushed(flushed.file, flushed.index + EncodeIndexEntry(entry), flushed.offset + |block|);
      assert flushed == FlushedMore(crc, was, filling);
      filling, past := Filling([], false, filling.last), PastFlushed(past);
      s := Ok;
    }

    /** The filter of all keys, if there is to be one. */
    method MakeFilter() returns (filter: Bytes)
      requires Valid() && FilterIsUsable(|past.all|, filterBitsPerKey)
      ensures Passes(crc, past.all, filter) && (filter == [] <==> filterBitsPerKey == 0 || past.all == [])
    {
      KeptCount(crc, filterBitsPerKey, flushed, filling, count, past, intact, !finished);
      KeysAsMany(past.all);
      filter := BuildFilter(crc, count.keys, filterBitsPerKey, probes);
      FilterPasses(crc, past.all, count.keys, filter);
    }

    /** Finish: the rest of the entries, the filter, the index and the footer. If no append has failed, the
        file is a finished file of exactly what was added. */
    method Finish() returns (s: Status)
      requires Valid() && FilterIsUsable(|past.all|, filterBitsPerKey)
      modifies this
      ensures Valid() && finished && past.all == old(past).all
      ensures s == InvalidArgument <==> old(finished)
      ensures s == InvalidArgument ==> flushed == old(flushed)
      ensures s == Ok ==> intact == old(intact) && synced
      ensures s == IOError ==> failures > old(failures)
      ensures s == Ok && intact ==> IsTable(crc, past, flushed.file)
    {
      if finished {
        return InvalidArgument;
      }
      s := FlushCurrentBlock();
      ghost var was, whole := flushed, intact;
      if s == Ok {
        var ok := WriteRest();
        s := if ok then Ok else IOError;
      }
      finished := true;
      FailedKeeps(crc, filterBitsPerKey, was, flushed, filling, count, past, whole, true, false);
    }

    /** The filter, with which the file can be finished. */
    method FilterToWrite() returns (filter: Bytes)
      requires Valid() && !finished && !filling.some && FilterIsUsable(|past.all|, filterBitsPerKey)
      ensures intact ==> IsTable(crc, past, Finished(crc, flushed, count.n, filter))
    {
      filter := MakeFilter();
      if intact {
        FinishedIsTable(crc, filterBitsPerKey, flushed, filling, count, past, filter);
      }
    }

    /** What Finish writes behind the blocks, and the sync. */
    method WriteRest() returns (ok: bool)
      requires Valid() && !finished && !filling.some && FilterIsUsable(|past.all|, filterBitsPerKey)
      modifies this`flushed, this`intact, this`synced, this`failures
      ensures failures == old(failures) + if ok then 0 else 1
      ensures ok ==> synced && intact == old(intact) && (intact ==> IsTable(crc, past, flushed.file))
    {
      var filter := FilterToWrite();
      ok := FinishFile(filter);
      if ok {
        ok := SyncFile();
      }
    }

    /** Filter, index and footer. */
    method FinishFile(filter: Bytes) returns (ok: bool)
      modifies this`flushed, this`intact, this`failures
      ensures failures == old(failures) + if ok then 0 else 1
      ensures ok ==> flushed.file == Finished(crc, old(flushed), count.n, filter) && intact == old(intact)
      ensures !ok ==> !intact
    {
      ok := AppendFilter(filter);
      if !ok { return; }
      var indexBytes := FinishBlock(crc, flushed.index);
      ok := AppendFile(indexBytes);
      if !ok { return; }
      ok := AppendFile(EncodeFooter(crc, FooterAt(flushed.offset, |FilterBytes(crc, filter)|, |indexBytes|, count.n)));
    }

    method AppendFilter(filter: Bytes) returns (ok: bool)
      modifies this`flushed, this`intact, this`failures
      ensures flushed == old(flushed).(file := flushed.file) && failures == old(failures) + if ok then 0 else 1
      ensures ok ==> flushed.file == old(flushed).file + FilterBytes(crc, filter) && intact == old(intact)
      ensures !ok ==> !intact
    {
      if filter == [] {
        assert flushed.file + [] == flushed.file;
        ok := true;
      } else {
        ok := AppendFile(FinishBlock(crc, filter));
      }
    }
  }
}
