/** A table file: data blocks, filter, index, footer; and what a reader makes of it.
    (projects/06-pebbledb/src/sstable/writer.cpp, src/sstable/reader.cpp) */
module TableFile {
  import opened Codec
  import opened BloomFilter

  // ----- the order of keys -----

  predicate Less(a: Bytes, b: Bytes) {
    b != [] && (a == [] || a[0] < b[0] || (a[0] == b[0] && Less(a[1..], b[1..])))
  }

  lemma {:induction false} LessIsStrict(a: Bytes, b: Bytes)
    ensures !(Less(a, b) && Less(b, a)) && !Less(a, a)
    decreases |a|
  {
    if a != [] {
      LessIsStrict(a[1..], if b == [] then [] else b[1..]);
    }
  }

  lemma {:induction false} LessIsTotal(a: Bytes, b: Bytes)
    ensures a == b || Less(a, b) || Less(b, a)
  {
    if a != [] && b != [] && a[0] == b[0] {
      LessIsTotal(a[1..], b[1..]);
      assert a == [a[0]] + a[1..] && b == [b[0]] + b[1..];
    }
  }

  lemma {:induction false} LessThrough(a: Bytes, b: Bytes, c: Bytes)
    requires Less(a, b) && Less(b, c)
    ensures Less(a, c)
  {
    if a != [] && a[0] == b[0] && b[0] == c[0] {
      LessThrough(a[1..], b[1..], c[1..]);
    }
  }

  predicate Increasing(es: seq<Entry>) {
    forall i, j {:trigger es[i], es[j]} :: 0 <= i < j < |es| ==> Less(es[i].key, es[j].key)
  }

  // ----- the file -----

  function BlockBytes(crc: Checksum, b: seq<Entry>): (r: Bytes)
    ensures |r| > 0
  {
    FinishBlock(crc, EncodeEntries(b))
  }

  /** The data blocks, one after the other. */
  function DataBytes(crc: Checksum, bs: seq<seq<Entry>>): Bytes {
    if bs == [] then [] else DataBytes(crc, bs[..|bs| - 1]) + BlockBytes(crc, bs[|bs| - 1])
  }

  predicate NoneEmpty(bs: seq<seq<Entry>>) {
    forall i :: 0 <= i < |bs| ==> bs[i] != []
  }

  function LastKey(b: seq<Entry>): Bytes
    requires b != []
  {
    b[|b| - 1].key
  }

  /** The index: where each block is, and its last key. */
  function Index(crc: Checksum, bs: seq<seq<Entry>>): (r: seq<IndexEntry>)
    requires NoneEmpty(bs)
    ensures |r| == |bs|
  {
    if bs == [] then []
    else
      var n := |bs| - 1;
      Index(crc, bs[..n]) + [IndexEntryOf(|DataBytes(crc, bs[..n])|, |BlockBytes(crc, bs[n])|, bs[n])]
  }

  function IndexEntryOf(offset: nat, size: nat, b: seq<Entry>): IndexEntry
    requires b != []
  {
    IndexEntry(LastKey(b), Handle(offset, size))
  }

  function Flatten(bs: seq<seq<Entry>>): seq<Entry> {
    if bs == [] then [] else Flatten(bs[..|bs| - 1]) + bs[|bs| - 1]
  }

  function FilterBytes(crc: Checksum, filter: Bytes): Bytes {
    if filter == [] then [] else FinishBlock(crc, filter)
  }

  function FooterOf(crc: Checksum, bs: seq<seq<Entry>>, filter: Bytes): Footer
    requires NoneEmpty(bs)
  {
    FooterAt(|DataBytes(crc, bs)|, |FilterBytes(crc, filter)|, |FinishBlock(crc, EncodeIndex(Index(crc, bs)))|, |Flatten(bs)|)
  }

  /** The footer of a file with d bytes of data, f of filter, x of index and n entries. */
  function FooterAt(d: nat, f: nat, x: nat, n: nat): Footer {
    Footer(Handle(d + f, x), Handle(d, f), n)
  }

  /** The whole file. */
  function FileBytes(crc: Checksum, bs: seq<seq<Entry>>, filter: Bytes): Bytes
    requires NoneEmpty(bs)
  {
    DataBytes(crc, bs) + FilterBytes(crc, filter) + FinishBlock(crc, EncodeIndex(Index(crc, bs))) + EncodeFooter(crc, FooterOf(crc, bs, filter))
  }

  // ----- reading -----

  /** A block handle must lie in the file. */
  predicate InFile(file: Bytes, h: Handle) {
    h.size <= |file| && h.offset <= |file| - h.size
  }

  function ReadBlock(crc: Checksum, file: Bytes, h: Handle): Option<Bytes> {
    if !InFile(file, h) then None
    else StripBlock(crc, file[h.offset..h.offset + h.size])
  }

  datatype Table = Table(index: seq<IndexEntry>, filter: Bytes)

  /** Reader::Open. */
  function OpenTable(crc: Checksum, file: Bytes): Option<Table> {
    if |file| < 49 then None
    else
      match DecodeFooter(crc, file[|file| - 49..])
      case None => None
      case Some(f) =>
        if !InFile(file, f.index) || !InFile(file, f.filter) then None else
        var index := if f.index.size == 0 then Some([]) else ReadIndex(crc, file, f.index);
        var filter := if f.filter.size == 0 then Some([]) else ReadBlock(crc, file, f.filter);
        if index == None || filter == None then None else Some(Table(index.value, filter.value))
  }

  function ReadIndex(crc: Checksum, file: Bytes, h: Handle): Option<seq<IndexEntry>> {
    match ReadBlock(crc, file, h) case Some(b) => DecodeIndex(b) case None => None
  }

  function ReadEntries(crc: Checksum, file: Bytes, h: Handle): Option<seq<Entry>> {
    match ReadBlock(crc, file, h) case Some(b) => DecodeEntries(b) case None => None
  }

  /** Reader::ForEachEntry: all entries, block by block. */
  function AllEntries(crc: Checksum, file: Bytes, index: seq<IndexEntry>): Option<seq<Entry>> {
    if index == [] then Some([])
    else
      var n := |index| - 1;
      match AllEntries(crc, file, index[..n])
      case None => None
      case Some(es) => (match ReadEntries(crc, file, index[n].handle) case Some(b) => Some(es + b) case None => None)
  }

  // ----- reading back -----

  predicate AllBlocksFit(bs: seq<seq<Entry>>) {
    forall i :: 0 <= i < |bs| ==> AllFit(bs[i])
  }

  /** Where block i starts. */
  function Offset(crc: Checksum, bs: seq<seq<Entry>>, i: nat): nat
    requires i <= |bs|
  {
    |DataBytes(crc, bs[..i])|
  }

  /** `b` lies in `d` at `lo`. */
  predicate LiesAt(d: Bytes, lo: nat, b: Bytes) {
    lo + |b| <= |d| && d[lo..lo + |b|] == b
  }

  lemma LiesInMore(d: Bytes, lo: nat, b: Bytes, more: Bytes)
    requires LiesAt(d, lo, b)
    ensures LiesAt(d + more, lo, b)
  {
  }

  lemma LiesLast(d: Bytes, b: Bytes)
    ensures LiesAt(d + b, |d|, b)
  {
  }

  /** Block i lies at its offset, and the next one right behind it. */
  lemma {:induction false} BlockLies(crc: Checksum, bs: seq<seq<Entry>>, i: nat)
    requires i < |bs|
    ensures Offset(crc, bs, i + 1) == Offset(crc, bs, i) + |BlockBytes(crc, bs[i])|
    ensures LiesAt(DataBytes(crc, bs), Offset(crc, bs, i), BlockBytes(crc, bs[i]))
    decreases |bs|
  {
    var n := |bs| - 1;
    assert bs[..i + 1][..i] == bs[..i];
    if i < n {
      BlockLies(crc, bs[..n], i);
      assert bs[..n][..i] == bs[..i] && bs[..n][..i + 1] == bs[..i + 1];
      LiesInMore(DataBytes(crc, bs[..n]), Offset(crc, bs, i), BlockBytes(crc, bs[i]), BlockBytes(crc, bs[n]));
    } else {
      assert bs[..i + 1] == bs;
      LiesLast(DataBytes(crc, bs[..n]), BlockBytes(crc, bs[n]));
    }
  }

  lemma {:induction false} IndexAt(crc: Checksum, bs: seq<seq<Entry>>, i: nat)
    requires NoneEmpty(bs) && i < |bs|
    ensures Index(crc, bs)[i] == IndexEntryOf(Offset(crc, bs, i), |BlockBytes(crc, bs[i])|, bs[i])
    decreases |bs|
  {
    var n := |bs| - 1;
    IndexGrows(crc, bs);
    if i < n {
      IndexAt(crc, bs[..n], i);
      assert bs[..n][..i] == bs[..i];
    }
  }

  lemma IndexGrows(crc: Checksum, bs: seq<seq<Entry>>)
    requires NoneEmpty(bs) && bs != []
    ensures var n := |bs| - 1;
            && Index(crc, bs)[n] == IndexEntryOf(Offset(crc, bs, n), |BlockBytes(crc, bs[n])|, bs[n])
            && forall i :: 0 <= i < n ==> Index(crc, bs)[i] == Index(crc, bs[..n])[i]
  {
  }

  /** The block handles tile the data region, in order. */
  lemma HandlesTile(crc: Checksum, bs: seq<seq<Entry>>)
    requires NoneEmpty(bs)
    ensures var x := Index(crc, bs);
            && (bs != [] ==> x[0].handle.offset == 0 && x[|x| - 1].handle.offset + x[|x| - 1].handle.size == |DataBytes(crc, bs)|)
            && (forall i {:trigger x[i]} :: 0 <= i < |x| - 1 ==> x[i].handle.offset + x[i].handle.size == x[i + 1].handle.offset)
  {
    var x := Index(crc, bs);
    forall i | 0 <= i < |x| ensures x[i].handle.offset == Offset(crc, bs, i) && x[i].handle.offset + x[i].handle.size == Offset(crc, bs, i + 1) {
      HandleAt(crc, bs, i);
    }
    if bs != [] { assert bs[..|bs|] == bs; }
  }

  lemma HandleAt(crc: Checksum, bs: seq<seq<Entry>>, i: nat)
    requires NoneEmpty(bs) && i < |bs|
    ensures var h := Index(crc, bs)[i].handle; h.offset == Offset(crc, bs, i) && h.offset + h.size == Offset(crc, bs, i + 1)
  {
    IndexAt(crc, bs, i);
    BlockLies(crc, bs, i);
  }

  lemma ReadsAt(crc: Checksum, d: Bytes, rest: Bytes, lo: nat, b: Bytes, c: Bytes)
    requires LiesAt(d, lo, b) && b == FinishBlock(crc, c)
    ensures ReadBlock(crc, d + rest, Handle(lo, |b|)) == Some(c)
  {
    LiesInMore(d, lo, b, rest);
    StripIsFinish(crc, b, c);
  }

  lemma RawBlockIsRead(crc: Checksum, bs: seq<seq<Entry>>, rest: Bytes, i: nat)
    requires NoneEmpty(bs) && i < |bs|
    ensures ReadBlock(crc, DataBytes(crc, bs) + rest, Index(crc, bs)[i].handle) == Some(EncodeEntries(bs[i]))
  {
    IndexAt(crc, bs, i);
    BlockLies(crc, bs, i);
    ReadsAt(crc, DataBytes(crc, bs), rest, Offset(crc, bs, i), BlockBytes(crc, bs[i]), EncodeEntries(bs[i]));
  }

  /** A data block of a file is read back. */
  lemma BlockIsRead(crc: Checksum, bs: seq<seq<Entry>>, rest: Bytes, i: nat)
    requires NoneEmpty(bs) && AllBlocksFit(bs) && i < |bs|
    ensures ReadEntries(crc, DataBytes(crc, bs) + rest, Index(crc, bs)[i].handle) == Some(bs[i])
  {
    RawBlockIsRead(crc, bs, rest, i);
    DecodeEncodeEntries(bs[i]);
  }

  /** All of them are, in order. */
  lemma {:induction false} AllAreRead(crc: Checksum, bs: seq<seq<Entry>>, rest: Bytes, n: nat)
    requires NoneEmpty(bs) && AllBlocksFit(bs) && n <= |bs|
    ensures AllEntries(crc, DataBytes(crc, bs) + rest, Index(crc, bs)[..n]) == Some(Flatten(bs[..n]))
    decreases n
  {
    if n > 0 {
      AllAreRead(crc, bs, rest, n - 1);
      BlockIsRead(crc, bs, rest, n - 1);
      EntriesGoOnTo(crc, DataBytes(crc, bs) + rest, Index(crc, bs), n - 1, Flatten(bs[..n - 1]), bs[n - 1]);
      assert bs[..n][..n - 1] == bs[..n - 1];
    }
  }

  lemma EntriesGoOnTo(crc: Checksum, file: Bytes, index: seq<IndexEntry>, n: nat, es: seq<Entry>, b: seq<Entry>)
    requires n < |index| && AllEntries(crc, file, index[..n]) == Some(es) && ReadEntries(crc, file, index[n].handle) == Some(b)
    ensures AllEntries(crc, file, index[..n + 1]) == Some(es + b)
  {
    assert index[..n + 1][..n] == index[..n];
  }

  /** A block somewhere in a file. */
  lemma ReadsBlock(crc: Checksum, a: Bytes, c: Bytes, rest: Bytes)
    ensures ReadBlock(crc, a + FinishBlock(crc, c) + rest, Handle(|a|, |FinishBlock(crc, c)|)) == Some(c)
  {
    var b := FinishBlock(crc, c);
    var file := a + b + rest;
    assert file[|a|..|a| + |b|] == b;
    StripIsFinish(crc, b, c);
  }

  predicate FileFits(crc: Checksum, bs: seq<seq<Entry>>, filter: Bytes)
    requires NoneEmpty(bs)
  {
    AllBlocksFit(bs) && |FileBytes(crc, bs, filter)| < U64 && |Flatten(bs)| < U64
  }

  lemma IndexFitsAll(crc: Checksum, bs: seq<seq<Entry>>)
    requires NoneEmpty(bs) && AllBlocksFit(bs) && |DataBytes(crc, bs)| < U64
    ensures forall i :: 0 <= i < |bs| ==> IndexFits(Index(crc, bs)[i])
  {
    forall i | 0 <= i < |bs| ensures IndexFits(Index(crc, bs)[i]) {
      IndexAt(crc, bs, i);
      BlockLies(crc, bs, i);
      assert Fits(bs[i][|bs[i]| - 1]);
    }
  }

  lemma FooterIsRead(crc: Checksum, bs: seq<seq<Entry>>, filter: Bytes)
    requires NoneEmpty(bs) && FileFits(crc, bs, filter)
    ensures var file := FileBytes(crc, bs, filter); |file| >= 49 && DecodeFooter(crc, file[|file| - 49..]) == Some(FooterOf(crc, bs, filter))
  {
    var file, f := FileBytes(crc, bs, filter), FooterOf(crc, bs, filter);
    assert file[|file| - 49..] == EncodeFooter(crc, f);
    DecodeEncodeFooter(crc, f);
  }

  lemma IndexIsRead(crc: Checksum, bs: seq<seq<Entry>>, filter: Bytes)
    requires NoneEmpty(bs) && FileFits(crc, bs, filter)
    ensures ReadIndex(crc, FileBytes(crc, bs, filter), FooterOf(crc, bs, filter).index) == Some(Index(crc, bs))
  {
    var d := DataBytes(crc, bs) + FilterBytes(crc, filter);
    ReadsBlock(crc, d, EncodeIndex(Index(crc, bs)), EncodeFooter(crc, FooterOf(crc, bs, filter)));
    IndexFitsAll(crc, bs);
    DecodeEncodeIndex(Index(crc, bs));
  }

  lemma FilterIsRead(crc: Checksum, bs: seq<seq<Entry>>, filter: Bytes)
    requires NoneEmpty(bs) && filter != []
    ensures ReadBlock(crc, FileBytes(crc, bs, filter), FooterOf(crc, bs, filter).filter) == Some(filter)
  {
    var rest := FinishBlock(crc, EncodeIndex(Index(crc, bs))) + EncodeFooter(crc, FooterOf(crc, bs, filter));
    assert FileBytes(crc, bs, filter) == DataBytes(crc, bs) + FinishBlock(crc, filter) + rest;
    ReadsBlock(crc, DataBytes(crc, bs), filter, rest);
  }

  /** What follows the data blocks. */
  function Tail(crc: Checksum, bs: seq<seq<Entry>>, filter: Bytes): Bytes
    requires NoneEmpty(bs)
  {
    FilterBytes(crc, filter) + FinishBlock(crc, EncodeIndex(Index(crc, bs))) + EncodeFooter(crc, FooterOf(crc, bs, filter))
  }

  lemma DataThenTail(crc: Checksum, bs: seq<seq<Entry>>, filter: Bytes)
    requires NoneEmpty(bs)
    ensures FileBytes(crc, bs, filter) == DataBytes(crc, bs) + Tail(crc, bs, filter)
  {
  }

  lemma Opens(crc: Checksum, file: Bytes, f: Footer, index: seq<IndexEntry>, filter: Bytes)
    requires |file| >= 49 && DecodeFooter(crc, file[|file| - 49..]) == Some(f)
    requires f.index.size > 0 && ReadIndex(crc, file, f.index) == Some(index)
    requires InFile(file, f.filter)
    requires if filter == [] then f.filter.size == 0 else f.filter.size > 0 && ReadBlock(crc, file, f.filter) == Some(filter)
    ensures OpenTable(crc, file) == Some(Table(index, filter))
  {
  }

  lemma TableIsOpened(crc: Checksum, bs: seq<seq<Entry>>, filter: Bytes)
    requires NoneEmpty(bs) && FileFits(crc, bs, filter)
    ensures OpenTable(crc, FileBytes(crc, bs, filter)) == Some(Table(Index(crc, bs), filter))
  {
    FooterIsRead(crc, bs, filter);
    IndexIsRead(crc, bs, filter);
    if filter != [] { FilterIsRead(crc, bs, filter); }
    Opens(crc, FileBytes(crc, bs, filter), FooterOf(crc, bs, filter), Index(crc, bs), filter);
  }

  /** A finished file is read back: its index, its filter, and exactly its entries, in order. */
  lemma FileIsReadBack(crc: Checksum, bs: seq<seq<Entry>>, filter: Bytes)
    requires NoneEmpty(bs) && FileFits(crc, bs, filter)
    ensures OpenTable(crc, FileBytes(crc, bs, filter)) == Some(Table(Index(crc, bs), filter))
    ensures AllEntries(crc, FileBytes(crc, bs, filter), Index(crc, bs)) == Some(Flatten(bs))
  {
    TableIsOpened(crc, bs, filter);
    DataThenTail(crc, bs, filter);
    AllAreRead(crc, bs, Tail(crc, bs, filter), |bs|);
    assert Index(crc, bs)[..|bs|] == Index(crc, bs) && bs[..|bs|] == bs;
  }

  // ----- looking a key up -----

  /** std::lower_bound over the last keys. */
  function LowerBound(index: seq<IndexEntry>, key: Bytes): (i: nat)
    ensures i <= |index| && (forall j :: 0 <= j < i ==> Less(index[j].lastKey, key)) && (i < |index| ==> !Less(index[i].lastKey, key))
  {
    if index == [] || !Less(index[0].lastKey, key) then 0 else 1 + LowerBound(index[1..], key)
  }

  /** The search through one block, which ends behind the place of the key. */
  function Search(es: seq<Entry>, key: Bytes): Option<Entry> {
    if es == [] then None
    else if es[0].key == key then Some(es[0])
    else if Less(key, es[0].key) then None
    else Search(es[1..], key)
  }

  /** The same search through the bytes of a block, which decodes no further than it has to; the outer option is
      None for bytes that are no entry. */
  function SearchBytes(input: Bytes, key: Bytes): Option<Option<Entry>>
    decreases |input|
  {
    if input == [] then Some(None)
    else
      match DecodeEntry(input)
      case Good(e, rest) => if e.key == key then Some(Some(e)) else if Less(key, e.key) then Some(None) else SearchBytes(rest, key)
      case _ => None
  }

  lemma {:induction false} SearchesEntries(es: seq<Entry>, key: Bytes)
    requires AllFit(es)
    ensures SearchBytes(EncodeEntries(es), key) == Some(Search(es, key))
    decreases |es|
  {
    if es != [] {
      EncodeFirst(es);
      DecodeEncodeEntry(es[0], EncodeEntries(es[1..]));
      EntryHeader(es[0], EncodeEntries(es[1..]));
      SearchesEntries(es[1..], key);
    }
  }

  /** Reader::Get; the outer option is None for a table that cannot be read. */
  function Get(crc: Checksum, file: Bytes, t: Table, key: Bytes): Option<Option<Entry>>
    requires Usable(t.filter)
  {
    if t.filter != [] && !MayMatch(crc, key, t.filter) then Some(None)
    else
      var i := LowerBound(t.index, key);
      if i == |t.index| then Some(None)
      else match ReadBlock(crc, file, t.index[i].handle) case Some(b) => SearchBytes(b, key) case None => None
  }

  /** The entry of a key in a sequence of entries. */
  predicate Holds(es: seq<Entry>, key: Bytes, r: Option<Entry>) {
    match r
    case Some(e) => e in es && e.key == key
    case None => forall i :: 0 <= i < |es| ==> es[i].key != key
  }

  lemma {:induction false} SearchFinds(es: seq<Entry>, key: Bytes)
    requires Increasing(es)
    ensures Holds(es, key, Search(es, key))
  {
    if es != [] && es[0].key != key {
      if Less(key, es[0].key) {
        forall i | 0 <= i < |es| ensures es[i].key != key {
          LessIsStrict(key, es[0].key);
          if i > 0 { LessIsStrict(es[0].key, es[i].key); }
        }
      } else {
        SearchFinds(es[1..], key);
      }
    }
  }

  /** A block lies in the whole sequence of entries. */
  lemma {:induction false} BlockInFlatten(bs: seq<seq<Entry>>, i: nat)
    requires i < |bs|
    ensures |Flatten(bs[..i])| + |bs[i]| <= |Flatten(bs)|
    ensures Flatten(bs)[|Flatten(bs[..i])|..|Flatten(bs[..i])| + |bs[i]|] == bs[i]
    decreases |bs|
  {
    var n := |bs| - 1;
    if i < n {
      BlockInFlatten(bs[..n], i);
      assert bs[..n][..i] == bs[..i];
    }
  }

  lemma {:induction false} InSomeBlock(bs: seq<seq<Entry>>, e: Entry) returns (i: nat, k: nat)
    requires e in Flatten(bs)
    ensures i < |bs| && k < |bs[i]| && bs[i][k] == e
    decreases |bs|
  {
    var n := |bs| - 1;
    if e in bs[n] {
      i := n;
      k :| 0 <= k < |bs[n]| && bs[n][k] == e;
    } else {
      i, k := InSomeBlock(bs[..n], e);
    }
  }

  lemma PartIncreases(es: seq<Entry>, at: nat, n: nat)
    requires Increasing(es) && at + n <= |es|
    ensures Increasing(es[at..at + n])
  {
  }

  lemma BlockIncreases(bs: seq<seq<Entry>>, i: nat)
    requires Increasing(Flatten(bs)) && i < |bs|
    ensures Increasing(bs[i])
  {
    BlockInFlatten(bs, i);
    PartIncreases(Flatten(bs), |Flatten(bs[..i])|, |bs[i]|);
  }

  lemma NoneAboveLast(b: seq<Entry>, k: nat)
    requires Increasing(b) && k < |b|
    ensures !Less(LastKey(b), b[k].key)
  {
    LessIsStrict(LastKey(b), b[k].key);
  }

  /** A key of a block is above the last key of every earlier one. */
  lemma AcrossBlocks(bs: seq<seq<Entry>>, i: nat, j: nat, k: nat)
    requires NoneEmpty(bs) && Increasing(Flatten(bs)) && i < j < |bs| && k < |bs[j]|
    ensures Less(LastKey(bs[i]), bs[j][k].key)
  {
    BlockInFlatten(bs, i);
    BlockInFlatten(bs, j);
    BlockInFlatten(bs[..j], i);
    assert bs[..j][..i] == bs[..i];
    var x, y := |Flatten(bs[..i])| + |bs[i]| - 1, |Flatten(bs[..j])| + k;
    assert Flatten(bs)[x] == bs[i][|bs[i]| - 1] && Flatten(bs)[y] == bs[j][k];
  }

  /** The block that lower_bound picks is the only one that can have the key. */
  lemma RightBlock(crc: Checksum, bs: seq<seq<Entry>>, key: Bytes, i: nat, k: nat)
    requires NoneEmpty(bs) && Increasing(Flatten(bs)) && i < |bs| && k < |bs[i]| && bs[i][k].key == key
    ensures LowerBound(Index(crc, bs), key) == i
  {
    var b := LowerBound(Index(crc, bs), key);
    if b < i {
      IndexAt(crc, bs, b);
      AcrossBlocks(bs, b, i, k);
    }
    if i < b {
      IndexAt(crc, bs, i);
      BlockIncreases(bs, i);
      NoneAboveLast(bs[i], k);
    }
  }

  /** A filter that lets every key of the table pass. */
  predicate Passes(crc: Checksum, es: seq<Entry>, filter: Bytes) {
    Usable(filter) && forall i :: 0 <= i < |es| ==> MayMatch(crc, es[i].key, filter)
  }

  /** Get on a finished file finds the entry of a key, and none exactly if there is none. */
  lemma GetFinds(crc: Checksum, bs: seq<seq<Entry>>, filter: Bytes, key: Bytes)
    requires NoneEmpty(bs) && FileFits(crc, bs, filter) && Increasing(Flatten(bs)) && Passes(crc, Flatten(bs), filter)
    ensures var r := Get(crc, FileBytes(crc, bs, filter), Table(Index(crc, bs), filter), key); r.Some? && Holds(Flatten(bs), key, r.value)
  {
    var file, t := FileBytes(crc, bs, filter), Table(Index(crc, bs), filter);
    var b := LowerBound(t.index, key);
    DataThenTail(crc, bs, filter);
    if b < |bs| {
      RawBlockIsRead(crc, bs, Tail(crc, bs, filter), b);
      SearchesEntries(bs[b], key);
      BlockIncreases(bs, b);
      SearchFinds(bs[b], key);
      BlockInFlatten(bs, b);
    }
    var r := Get(crc, file, t, key);
    if r.value == None {
      forall x | 0 <= x < |Flatten(bs)| ensures Flatten(bs)[x].key != key {
        var i, k := InSomeBlock(bs, Flatten(bs)[x]);
        if bs[i][k].key == key { RightBlock(crc, bs, key, i, k); }
      }
    } else {
      InWhole(bs, b, r.value.value);
    }
  }

  lemma InWhole(bs: seq<seq<Entry>>, i: nat, e: Entry)
    requires i < |bs| && e in bs[i]
    ensures e in Flatten(bs)
  {
    BlockInFlatten(bs, i);
    var k :| 0 <= k < |bs[i]| && bs[i][k] == e;
    assert Flatten(bs)[|Flatten(bs[..i])| + k] == e;
  }

  // ----- the reader's loops -----

  /** Get's loop. */
  method FindInBlock(block: Bytes, key: Bytes) returns (r: Option<Option<Entry>>)
    ensures r == SearchBytes(block, key)
  {
    var input := block;
    while input != []
      invariant SearchBytes(input, key) == SearchBytes(block, key)
      decreases |input|
    {
      match DecodeEntry(input)
      case Good(e, rest) =>
        if e.key == key {
          return Some(Some(e));
        }
        if Less(key, e.key) {
          return Some(None);
        }
        input := rest;
      case _ =>
        return None;
    }
    r := Some(None);
  }

  /** Open's loop over the index block, and ForEachEntry's over a data block, with what it has called back. */
  method DecodeBlock(block: Bytes) returns (r: Option<seq<Entry>>)
    ensures r == DecodeEntries(block)
  {
    var input, es := block, [];
    OntoNothing(DecodeEntries(block));
    while input != []
      invariant DecodeEntries(block) == Onto(es, DecodeEntries(input))
      decreases |input|
    {
      match DecodeEntry(input)
      case Good(e, rest) =>
        OntoMore(es, e, DecodeEntries(rest));
        input, es := rest, es + [e];
      case _ =>
        return None;
    }
    r := Some(es);
    assert es + [] == es;
  }

  function Onto(es: seq<Entry>, more: Option<seq<Entry>>): Option<seq<Entry>> {
    match more case Some(m) => Some(es + m) case None => None
  }

  lemma OntoNothing(more: Option<seq<Entry>>)
    ensures Onto([], more) == more
  {
    if more.Some? { assert [] + more.value == more.value; }
  }

  lemma OntoMore(es: seq<Entry>, e: Entry, more: Option<seq<Entry>>)
    ensures Onto(es, Onto([e], more)) == Onto(es + [e], more)
  {
    if more.Some? { assert es + ([e] + more.value) == es + [e] + more.value; }
  }

  method ForEachEntry(crc: Checksum, file: Bytes, index: seq<IndexEntry>) returns (r: Option<seq<Entry>>)
    ensures r == AllEntries(crc, file, index)
  {
    var es, i := [], 0;
    while i < |index|
      invariant 0 <= i <= |index| && AllEntries(crc, file, index[..i]) == Some(es)
    {
      assert index[..i + 1][..i] == index[..i];
      var block := ReadBlock(crc, file, index[i].handle);
      var more := None;
      if block.Some? {
        more := DecodeBlock(block.value);
      }
      if more == None {
        FailsOn(crc, file, index, i + 1);
        return None;
      }
      es, i := es + more.value, i + 1;
    }
    assert index[..|index|] == index;
    r := Some(es);
  }

  /** One block that cannot be read is the end of the iteration. */
  lemma {:induction false} FailsOn(crc: Checksum, file: Bytes, index: seq<IndexEntry>, i: nat)
    requires i <= |index| && AllEntries(crc, file, index[..i]) == None
    ensures AllEntries(crc, file, index) == None
    decreases |index|
  {
    if i == |index| {
      assert index[..i] == index;
    } else {
      assert index[..|index| - 1][..i] == index[..i];
      FailsOn(crc, file, index[..|index| - 1], i);
    }
  }
}
