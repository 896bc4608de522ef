/** Fixed-width integers, checksummed blocks, and the entries, index entries and footers of a table file, as
    bytes. (projects/06-pebbledb/src/util/coding.cpp, src/sstable/format.cpp) */
module Codec {

  type Byte = x: int | 0 <= x < 256
  type Bytes = seq<Byte>
  type Word = x: int | 0 <= x < 0x1_0000_0000

  /** A checksum of bytes: any function will do. */
  type Checksum = Bytes -> Word

  datatype Option<T> = None | Some(value: T)

  // ----- integers -----

  function Power(n: nat): nat {
    if n == 0 then 1 else 256 * Power(n - 1)
  }

  /** The n low bytes of v, the lowest first. */
  function Put(v: nat, n: nat): (b: Bytes)
    ensures |b| == n
  {
    if n == 0 then [] else [v % 256] + Put(v / 256, n - 1)
  }

  function Fetch(b: Bytes): nat {
    if b == [] then 0 else b[0] + 256 * Fetch(b[1..])
  }

  lemma {:induction false} FetchPut(v: nat, n: nat)
    requires v < Power(n)
    ensures Fetch(Put(v, n)) == v
    decreases n
  {
    if n > 0 {
      FetchPut(v / 256, n - 1);
      assert Put(v, n)[1..] == Put(v / 256, n - 1);
    }
  }

  lemma {:induction false} PutFetch(b: Bytes)
    ensures Fetch(b) < Power(|b|) && Put(Fetch(b), |b|) == b
  {
    if b != [] {
      PutFetch(b[1..]);
      assert b == [b[0]] + b[1..];
    }
  }

  lemma Powers()
    ensures Power(4) == 0x1_0000_0000 && Power(8) == 0x1_0000_0000_0000_0000
  {
    assert Power(1) == 256 && Power(2) == 0x1_0000 && Power(3) == 0x100_0000;
    assert Power(4) == 0x1_0000_0000 && Power(5) == 0x100_0000_0000 && Power(6) == 0x1_0000_0000_0000 && Power(7) == 0x100_0000_0000_0000;
  }

  const U32 := 0x1_0000_0000
  const U64 := 0x1_0000_0000_0000_0000

  function Put32(v: nat): (b: Bytes)
    ensures |b| == 4
  {
    Put(v, 4)
  }

  function Put64(v: nat): (b: Bytes)
    ensures |b| == 8
  {
    Put(v, 8)
  }

  /** What is read back at a place where an integer was put. */
  lemma Read32(a: Bytes, v: nat, c: Bytes)
    requires v < U32
    ensures Fetch((a + Put32(v) + c)[|a|..|a| + 4]) == v
  {
    Powers();
    FetchPut(v, 4);
    assert (a + Put32(v) + c)[|a|..|a| + 4] == Put32(v);
  }

  lemma Read64(a: Bytes, v: nat, c: Bytes)
    requires v < U64
    ensures Fetch((a + Put64(v) + c)[|a|..|a| + 8]) == v
  {
    Powers();
    FetchPut(v, 8);
    assert (a + Put64(v) + c)[|a|..|a| + 8] == Put64(v);
  }

  /** DecodeFixed64's loop, from the highest byte down. */
  method DecodeFixed64(b: Bytes) returns (result: nat)
    requires |b| == 8
    ensures result == Fetch(b)
  {
    result := 0;
    var i := 8;
    while i > 0
      invariant 0 <= i <= 8 && result == Fetch(b[i..])
    {
      i := i - 1;
      assert b[i..][1..] == b[i + 1..];
      result := result * 256 + b[i];
    }
    assert b[0..] == b;
  }

  // ----- entries -----

  /** A key with its value or, `tomb`, without one. */
  datatype Entry = Entry(key: Bytes, seqno: nat, tomb: bool, value: Bytes)

  /** What fits the widths of the format. */
  predicate Representable(e: Entry) {
    e.seqno < U64 && |e.key| < U32 && |e.value| < U32
  }

  /** What a writer makes of a key: a tombstone has no value. */
  predicate Fits(e: Entry) {
    Representable(e) && (e.tomb ==> e.value == [])
  }

  function EncodeEntry(e: Entry): Bytes {
    [if e.tomb then 2 else 1] + Put64(e.seqno) + Put32(|e.key|) + Put32(|e.value|) + e.key + e.value
  }

  datatype Decoded<T> = Good(value: T, rest: Bytes) | Truncated | BadType

  /** DecodeEntry: the first entry of the input, and what follows it. */
  function DecodeEntry(input: Bytes): (r: Decoded<Entry>)
    ensures r.Good? ==> |r.rest| < |input|
  {
    if |input| < 17 then Truncated
    else if input[0] != 1 && input[0] != 2 then BadType
    else
      var seqno, klen, vlen := Fetch(input[1..9]), Fetch(input[9..13]), Fetch(input[13..17]);
      if |input| < 17 + klen + vlen then Truncated
      else Good(Entry(input[17..17 + klen], seqno, input[0] == 2, input[17 + klen..17 + klen + vlen]), input[17 + klen + vlen..])
  }

  lemma EntryHeader(e: Entry, rest: Bytes)
    requires Representable(e)
    ensures var input := EncodeEntry(e) + rest;
            && |EncodeEntry(e)| == 17 + |e.key| + |e.value|
            && input[0] == (if e.tomb then 2 else 1)
            && Fetch(input[1..9]) == e.seqno && Fetch(input[9..13]) == |e.key| && Fetch(input[13..17]) == |e.value|
  {
    var input := EncodeEntry(e) + rest;
    var t: Bytes := [if e.tomb then 2 else 1];
    var s, k, v := Put64(e.seqno), Put32(|e.key|), Put32(|e.value|);
    EntryRegrouped(t, s, k, v, e.key, e.value, rest);
    Read64(t, e.seqno, k + v + (e.key + e.value + rest));
    Read32(t + s, |e.key|, v + (e.key + e.value + rest));
    Read32(t + s + k, |e.value|, e.key + e.value + rest);
  }

  lemma EntryRegrouped(t: Bytes, s: Bytes, k: Bytes, v: Bytes, key: Bytes, value: Bytes, rest: Bytes)
    ensures var input, tail := (t + s + k + v + key + value) + rest, key + value + rest;
            && input == t + s + (k + v + tail) && input == (t + s) + k + (v + tail) && input == (t + s + k) + v + tail
  {
  }

  /** An entry is read back, whatever follows it. */
  lemma DecodeEncodeEntry(e: Entry, rest: Bytes)
    requires Representable(e)
    ensures DecodeEntry(EncodeEntry(e) + rest) == Good(e, rest)
  {
    EntryHeader(e, rest);
    var input, n := EncodeEntry(e) + rest, 17 + |e.key|;
    assert input[17..n] == e.key && input[n..n + |e.value|] == e.value && input[n + |e.value|..] == rest;
  }

  /** The bytes of two entries differ, and what is read as an entry is that entry's bytes: decoding is the exact
      inverse. */
  lemma EntryIsDecoded(e: Entry, input: Bytes, rest: Bytes)
    ensures DecodeEntry(input) == Good(e, rest) <==> Representable(e) && input == EncodeEntry(e) + rest
  {
    if DecodeEntry(input) == Good(e, rest) {
      DecodedFields(e, input, rest);
      EntryPieces(input, 17 + |e.key|, 17 + |e.key| + |e.value|);
    }
    if Representable(e) && input == EncodeEntry(e) + rest {
      DecodeEncodeEntry(e, rest);
    }
  }

  lemma DecodedFields(e: Entry, input: Bytes, rest: Bytes)
    requires DecodeEntry(input) == Good(e, rest)
    ensures Representable(e) && 17 + |e.key| + |e.value| <= |input|
    ensures input[..1] == [if e.tomb then 2 else 1] && input[1..9] == Put64(e.seqno)
    ensures input[9..13] == Put32(|e.key|) && input[13..17] == Put32(|e.value|)
    ensures var n := 17 + |e.key|; input[17..n] == e.key && input[n..n + |e.value|] == e.value && input[n + |e.value|..] == rest
  {
    Powers();
    PutFetch(input[1..9]);
    PutFetch(input[9..13]);
    PutFetch(input[13..17]);
  }

  lemma EntryPieces(input: Bytes, n: nat, m: nat)
    requires 17 <= n <= m <= |input|
    ensures input == input[..1] + input[1..9] + input[9..13] + input[13..17] + input[17..n] + input[n..m] + input[m..]
  {
  }

  function EncodeEntries(es: seq<Entry>): Bytes {
    if es == [] then [] else EncodeEntries(es[..|es| - 1]) + EncodeEntry(es[|es| - 1])
  }

  /** All entries of a block, in order; none if there is a bad one. */
  function DecodeEntries(input: Bytes): Option<seq<Entry>>
    decreases |input|
  {
    if input == [] then Some([])
    else
      match DecodeEntry(input)
      case Good(e, rest) => (match DecodeEntries(rest) case Some(es) => Some([e] + es) case None => None)
      case _ => None
  }

  predicate AllFit(es: seq<Entry>) {
    forall i :: 0 <= i < |es| ==> Fits(es[i])
  }

  lemma {:induction false} EncodeFirst(es: seq<Entry>)
    requires es != []
    ensures EncodeEntries(es) == EncodeEntry(es[0]) + EncodeEntries(es[1..])
    decreases |es|
  {
    if |es| > 1 {
      var n := |es| - 1;
      EncodeFirst(es[..n]);
      assert es[..n][1..] == es[1..][..n - 1];
      assert EncodeEntry(es[0]) + EncodeEntries(es[1..][..n - 1]) + EncodeEntry(es[n]) == EncodeEntry(es[0]) + (EncodeEntries(es[1..][..n - 1]) + EncodeEntry(es[n]));
    } else {
      assert es[..0] == [] && es[1..] == [];
      assert [] + EncodeEntry(es[0]) == EncodeEntry(es[0]) + [];
    }
  }

  lemma {:induction false} DecodeEncodeEntries(es: seq<Entry>)
    requires AllFit(es)
    ensures DecodeEntries(EncodeEntries(es)) == Some(es)
    decreases |es|
  {
    if es != [] {
      EncodeFirst(es);
      DecodeEncodeEntry(es[0], EncodeEntries(es[1..]));
      DecodeEncodeEntries(es[1..]);
      EntriesGoOn(EncodeEntries(es), es[0], EncodeEntries(es[1..]), es[1..]);
      assert [es[0]] + es[1..] == es;
    }
  }

  lemma EntriesGoOn(input: Bytes, e: Entry, rest: Bytes, es: seq<Entry>)
    requires DecodeEntry(input) == Good(e, rest) && DecodeEntries(rest) == Some(es)
    ensures DecodeEntries(input) == Some([e] + es)
  {
  }

  // ----- blocks -----

  /** FinishBlock: contents, compression byte 0, checksum of both. */
  function FinishBlock(crc: Checksum, c: Bytes): Bytes {
    c + [0] + Put32(crc(c + [0]))
  }

  /** VerifyAndStripBlockTrailer. */
  function StripBlock(crc: Checksum, raw: Bytes): Option<Bytes> {
    if |raw| < 5 then None
    else
      var n := |raw| - 5;
      if raw[n] != 0 || crc(raw[..n + 1]) != Fetch(raw[n + 1..]) then None else Some(raw[..n])
  }

  /** A raw block is accepted if and only if it is the finished block of what it is taken for. */
  lemma StripIsFinish(crc: Checksum, raw: Bytes, c: Bytes)
    ensures StripBlock(crc, raw) == Some(c) <==> raw == FinishBlock(crc, c)
  {
    Powers();
    if raw == FinishBlock(crc, c) {
      var n := |c|;
      assert raw[..n] == c && raw[..n + 1] == c + [0] && raw[n + 1..] == Put32(crc(c + [0]));
      FetchPut(crc(c + [0]), 4);
    }
    if StripBlock(crc, raw) == Some(c) {
      var n := |raw| - 5;
      PutFetch(raw[n + 1..]);
      assert raw[..n + 1] == c + [0];
      assert raw == raw[..n + 1] + raw[n + 1..];
    }
  }

  // ----- index -----

  /** Where a block is, and the last key in it. */
  datatype Handle = Handle(offset: nat, size: nat)
  datatype IndexEntry = IndexEntry(lastKey: Bytes, handle: Handle)

  predicate IndexFits(e: IndexEntry) {
    |e.lastKey| < U32 && e.handle.offset < U64 && e.handle.size < U64
  }

  function EncodeIndexEntry(e: IndexEntry): Bytes {
    Put32(|e.lastKey|) + e.lastKey + Put64(e.handle.offset) + Put64(e.handle.size)
  }

  function DecodeIndexEntry(input: Bytes): (r: Decoded<IndexEntry>)
    ensures r.Good? ==> |r.rest| < |input|
  {
    if |input| < 4 then Truncated
    else
      var n := Fetch(input[..4]);
      if |input| < 20 + n then Truncated
      else Good(IndexEntry(input[4..4 + n], Handle(Fetch(input[4 + n..12 + n]), Fetch(input[12 + n..20 + n]))), input[20 + n..])
  }

  lemma DecodeEncodeIndexEntry(e: IndexEntry, rest: Bytes)
    requires IndexFits(e)
    ensures DecodeIndexEntry(EncodeIndexEntry(e) + rest) == Good(e, rest)
  {
    var input, n := EncodeIndexEntry(e) + rest, |e.lastKey|;
    var k, o, z := Put32(n), Put64(e.handle.offset), Put64(e.handle.size);
    assert input == [] + k + (e.lastKey + o + z + rest);
    Read32([], n, e.lastKey + o + z + rest);
    assert input == (k + e.lastKey) + o + (z + rest);
    Read64(k + e.lastKey, e.handle.offset, z + rest);
    assert input == (k + e.lastKey + o) + z + rest;
    Read64(k + e.lastKey + o, e.handle.size, rest);
    assert input[4..4 + n] == e.lastKey && input[20 + n..] == rest;
  }

  function EncodeIndex(es: seq<IndexEntry>): Bytes {
    if es == [] then [] else EncodeIndex(es[..|es| - 1]) + EncodeIndexEntry(es[|es| - 1])
  }

  function DecodeIndex(input: Bytes): Option<seq<IndexEntry>>
    decreases |input|
  {
    if input == [] then Some([])
    else
      match DecodeIndexEntry(input)
      case Good(e, rest) => (match DecodeIndex(rest) case Some(es) => Some([e] + es) case None => None)
      case _ => None
  }

  lemma {:induction false} IndexFirst(es: seq<IndexEntry>)
    requires es != []
    ensures EncodeIndex(es) == EncodeIndexEntry(es[0]) + EncodeIndex(es[1..])
    decreases |es|
  {
    if |es| > 1 {
      var n := |es| - 1;
      IndexFirst(es[..n]);
      assert es[..n][1..] == es[1..][..n - 1];
      assert EncodeIndexEntry(es[0]) + EncodeIndex(es[1..][..n - 1]) + EncodeIndexEntry(es[n]) == EncodeIndexEntry(es[0]) + (EncodeIndex(es[1..][..n - 1]) + EncodeIndexEntry(es[n]));
    } else {
      assert es[..0] == [] && es[1..] == [];
      assert [] + EncodeIndexEntry(es[0]) == EncodeIndexEntry(es[0]) + [];
    }
  }

  lemma {:induction false} DecodeEncodeIndex(es: seq<IndexEntry>)
    requires forall i :: 0 <= i < |es| ==> IndexFits(es[i])
    ensures DecodeIndex(EncodeIndex(es)) == Some(es)
    decreases |es|
  {
    if es != [] {
      IndexFirst(es);
      DecodeEncodeIndexEntry(es[0], EncodeIndex(es[1..]));
      DecodeEncodeIndex(es[1..]);
      IndexGoesOn(EncodeIndex(es), es[0], EncodeIndex(es[1..]), es[1..]);
      assert [es[0]] + es[1..] == es;
    }
  }

  lemma IndexGoesOn(input: Bytes, e: IndexEntry, rest: Bytes, es: seq<IndexEntry>)
    requires DecodeIndexEntry(input) == Good(e, rest) && DecodeIndex(rest) == Some(es)
    ensures DecodeIndex(input) == Some([e] + es)
  {
  }

  // ----- footer -----

  datatype Footer = Footer(index: Handle, filter: Handle, entries: nat)

  const MAGIC := 0x5042_5354
  const VERSION := 1

  predicate FooterFits(f: Footer) {
    f.index.offset < U64 && f.index.size < U64 && f.filter.offset < U64 && f.filter.size < U64 && f.entries < U64
  }

  function FooterBody(f: Footer): (b: Bytes)
    ensures |b| == 45
  {
    Put32(MAGIC) + [VERSION] + Put64(f.index.offset) + Put64(f.index.size) + Put64(f.filter.offset) + Put64(f.filter.size) + Put64(f.entries)
  }

  function EncodeFooter(crc: Checksum, f: Footer): (b: Bytes)
    ensures |b| == 49
  {
    Put32(crc(FooterBody(f))) + FooterBody(f)
  }

  /** DecodeFooter on the last 49 bytes of a file. */
  function DecodeFooter(crc: Checksum, b: Bytes): Option<Footer>
    requires |b| == 49
  {
    if Fetch(b[4..8]) != MAGIC || b[8] != VERSION || Fetch(b[..4]) != crc(b[4..]) then None
    else Some(Footer(Handle(Fetch(b[9..17]), Fetch(b[17..25])), Handle(Fetch(b[25..33]), Fetch(b[33..41])), Fetch(b[41..49])))
  }

  /** The fields of a footer's body lie one after the other. */
  lemma FooterLayout(m: Bytes, v: Bytes, a: Bytes, b: Bytes, c: Bytes, d: Bytes, e: Bytes)
    requires |m| == 4 && |v| == 1 && |a| == 8 && |b| == 8 && |c| == 8 && |d| == 8 && |e| == 8
    ensures var x := m + v + a + b + c + d + e;
            && x[..4] == m && x[4] == v[0] && x[5..13] == a && x[13..21] == b && x[21..29] == c && x[29..37] == d && x[37..45] == e
  {
  }

  lemma FooterFields(f: Footer)
    requires FooterFits(f)
    ensures var b := FooterBody(f);
            && Fetch(b[..4]) == MAGIC && b[4] == VERSION && Fetch(b[5..13]) == f.index.offset && Fetch(b[13..21]) == f.index.size
            && Fetch(b[21..29]) == f.filter.offset && Fetch(b[29..37]) == f.filter.size && Fetch(b[37..45]) == f.entries
  {
    FooterLayout(Put32(MAGIC), [VERSION], Put64(f.index.offset), Put64(f.index.size), Put64(f.filter.offset), Put64(f.filter.size), Put64(f.entries));
    Powers();
    FetchPut(MAGIC, 4);
    FetchPut(f.index.offset, 8);
    FetchPut(f.index.size, 8);
    FetchPut(f.filter.offset, 8);
    FetchPut(f.filter.size, 8);
    FetchPut(f.entries, 8);
  }

  lemma DecodeEncodeFooter(crc: Checksum, f: Footer)
    requires FooterFits(f)
    ensures DecodeFooter(crc, EncodeFooter(crc, f)) == Some(f)
  {
    var b, body := EncodeFooter(crc, f), FooterBody(f);
    FooterFields(f);
    Powers();
    FetchPut(crc(body), 4);
    assert b[..4] == Put32(crc(body)) && b[4..] == body;
    assert b[4..8] == body[..4] && b[9..17] == body[5..13] && b[17..25] == body[13..21] && b[25..33] == body[21..29];
    assert b[33..41] == body[29..37] && b[41..49] == body[37..45];
  }
}
