/** The records of a write-ahead log as bytes, and what a replay makes of any bytes at all.
    (projects/06-pebbledb/src/wal/record.cpp, src/wal/reader.cpp) */
module WalFormat {
  import opened Codec

  datatype Record = Record(seqno: nat, delete: bool, key: Bytes, value: Bytes)

  const WAL_MAGIC := 0x5042_4B31
  const WAL_VERSION := 1
  const HEADER := 26
  const MAX_KEY := 0x10_0000
  const MAX_VALUE := 0x400_0000

  /** The fields of the header are wide enough for it. */
  predicate Wide(r: Record) {
    r.seqno < U64 && |r.key| < U32 && |r.value| < U32
  }

  /** It is within the bounds that a reader enforces. */
  predicate Bounded(r: Record) {
    |r.key| <= MAX_KEY && |r.value| <= MAX_VALUE
  }

  /** What a log keeps of a record: no value with a delete. */
  function Stored(r: Record): Record {
    if r.delete then r.(value := []) else r
  }

  /** The header without the checksum. */
  function Fields(r: Record): (b: Bytes)
    ensures |b| == 22
  {
    Put32(WAL_MAGIC) + [WAL_VERSION] + [if r.delete then 2 else 1] + Put64(r.seqno) + Put32(|r.key|) + Put32(|r.value|)
  }

  function Body(r: Record): (b: Bytes)
    ensures |b| == 22 + |r.key| + |r.value|
  {
    Fields(r) + r.key + r.value
  }

  function EncodeRecord(crc: Checksum, r: Record): (b: Bytes)
    ensures |b| == HEADER + |r.key| + |r.value|
  {
    Put32(crc(Body(r))) + Body(r)
  }

  // ----- reading -----

  datatype End = EndOfLog | Truncated | Corruption | UnsupportedVersion
  datatype Outcome = Got(r: Record, size: nat) | Ended(end: End)

  datatype Header = Header(checksum: nat, magic: nat, version: nat, op: nat, seqno: nat, klen: nat, vlen: nat)

  function HeaderOf(h: Bytes): Header
    requires |h| == HEADER
  {
    Header(Fetch(h[..4]), Fetch(h[4..8]), h[8], h[9], Fetch(h[10..18]), Fetch(h[18..22]), Fetch(h[22..26]))
  }

  /** DecodeHeader: why it is refused. */
  function HeaderError(h: Header): Option<End> {
    if h.magic != WAL_MAGIC then Some(Corruption)
    else if h.version == 0 || h.version > WAL_VERSION then Some(UnsupportedVersion)
    else if h.klen > MAX_KEY || h.vlen > MAX_VALUE then Some(Corruption)
    else None
  }

  /** DecodeBody, on a header that DecodeHeader takes and a payload of the length it gives. */
  function DecodeBody(crc: Checksum, h: Header, fields: Bytes, payload: Bytes): Outcome
    requires |payload| == h.klen + h.vlen
  {
    if crc(fields + payload) != h.checksum || (h.op != 1 && h.op != 2) then Ended(Corruption)
    else Got(Record(h.seqno, h.op == 2, payload[..h.klen], payload[h.klen..]), HEADER + |payload|)
  }

  /** ReadNext, on what is left of the file. */
  function First(crc: Checksum, x: Bytes): (o: Outcome)
    ensures o.Got? ==> HEADER <= o.size <= |x|
  {
    if x == [] then Ended(EndOfLog)
    else if |x| < HEADER then Ended(End.Truncated)
    else
      var h := HeaderOf(x[..HEADER]);
      var n := HEADER + h.klen + h.vlen;
      match HeaderError(h)
      case Some(e) => Ended(e)
      case None => if |x| < n then Ended(End.Truncated) else DecodeBody(crc, h, x[4..HEADER], x[HEADER..n])
  }

  datatype Replayed = Replayed(records: seq<Record>, end: End, consumed: nat)

  /** Replay: the records up to the first that is not fully there and valid, why it ends, and how many bytes
      they take. */
  function Replay(crc: Checksum, x: Bytes): Replayed
    decreases |x|
  {
    match First(crc, x)
    case Ended(e) => Replayed([], e, 0)
    case Got(r, n) => Behind([r], n, Replay(crc, x[n..]))
  }

  function Behind(rs: seq<Record>, n: nat, m: Replayed): Replayed {
    Replayed(rs + m.records, m.end, n + m.consumed)
  }

  // ----- one record -----

  lemma FieldsLayout(m: Bytes, v: Bytes, o: Bytes, s: Bytes, k: Bytes, l: Bytes)
    requires |m| == 4 && |v| == 1 && |o| == 1 && |s| == 8 && |k| == 4 && |l| == 4
    ensures var b := m + v + o + s + k + l;
            b[..4] == m && b[4] == v[0] && b[5] == o[0] && b[6..14] == s && b[14..18] == k && b[18..22] == l
  {
  }

  lemma FieldsAre(r: Record)
    requires Wide(r)
    ensures var b := Fields(r);
            && Fetch(b[..4]) == WAL_MAGIC && b[4] == WAL_VERSION && b[5] == (if r.delete then 2 else 1)
            && Fetch(b[6..14]) == r.seqno && Fetch(b[14..18]) == |r.key| && Fetch(b[18..22]) == |r.value|
  {
    FieldsLayout(Put32(WAL_MAGIC), [WAL_VERSION], [if r.delete then 2 else 1], Put64(r.seqno), Put32(|r.key|), Put32(|r.value|));
    Powers();
    FetchPut(WAL_MAGIC, 4);
    FetchPut(r.seqno, 8);
    FetchPut(|r.key|, 4);
    FetchPut(|r.value|, 4);
  }

  function HeaderFor(crc: Checksum, r: Record): Header {
    Header(crc(Body(r)), WAL_MAGIC, WAL_VERSION, if r.delete then 2 else 1, r.seqno, |r.key|, |r.value|)
  }

  lemma HeaderLayout(c: Bytes, f: Bytes)
    requires |c| == 4 && |f| == 22
    ensures var h := c + f;
            && h[..4] == c && h[4..8] == f[..4] && h[8] == f[4] && h[9] == f[5]
            && h[10..18] == f[6..14] && h[18..22] == f[14..18] && h[22..26] == f[18..22]
  {
  }

  /** The header of a record's bytes. */
  lemma HeaderIsRead(crc: Checksum, r: Record)
    requires Wide(r)
    ensures HeaderOf(Put32(crc(Body(r))) + Fields(r)) == HeaderFor(crc, r)
  {
    HeaderLayout(Put32(crc(Body(r))), Fields(r));
    FieldsAre(r);
    Powers();
    FetchPut(crc(Body(r)), 4);
  }

  lemma RecordLayout(c: Bytes, f: Bytes, key: Bytes, value: Bytes, rest: Bytes)
    requires |c| == 4 && |f| == 22
    ensures var x, n := c + (f + key + value) + rest, HEADER + |key| + |value|;
            && x[..HEADER] == c + f && x[4..HEADER] == f && x[HEADER..n] == key + value && x[n..] == rest
            && f + (key + value) == f + key + value && (key + value)[..|key|] == key && (key + value)[|key|..] == value
  {
  }

  /** A record within the bounds is read back, whatever follows it; beyond them its bytes count as corrupt. */
  lemma RecordIsRead(crc: Checksum, r: Record, rest: Bytes)
    requires Wide(r)
    ensures First(crc, EncodeRecord(crc, r) + rest) == if Bounded(r) then Got(r, |EncodeRecord(crc, r)|) else Ended(Corruption)
    ensures (EncodeRecord(crc, r) + rest)[|EncodeRecord(crc, r)|..] == rest
  {
    RecordLayout(Put32(crc(Body(r))), Fields(r), r.key, r.value, rest);
    HeaderIsRead(crc, r);
  }

  lemma Pieces(x: Bytes, n: nat, m: nat)
    requires 26 <= n <= m <= |x|
    ensures x[..m] == x[..4] + (x[4..8] + [x[8]] + [x[9]] + x[10..18] + x[18..22] + x[22..26] + x[26..n] + x[n..m])
    ensures x[4..26] == x[4..8] + [x[8]] + [x[9]] + x[10..18] + x[18..22] + x[22..26]
    ensures x[4..26] + x[26..m] == x[4..26] + x[26..n] + x[n..m]
  {
  }

  lemma GotFields(crc: Checksum, x: Bytes, r: Record, n: nat)
    requires First(crc, x) == Got(r, n)
    ensures Wide(r) && Bounded(r) && n == HEADER + |r.key| + |r.value| <= |x|
    ensures Fetch(x[4..8]) == WAL_MAGIC && x[8] == WAL_VERSION && x[9] == (if r.delete then 2 else 1)
    ensures Fetch(x[10..18]) == r.seqno && Fetch(x[18..22]) == |r.key| && Fetch(x[22..26]) == |r.value|
    ensures x[HEADER..HEADER + |r.key|] == r.key && x[HEADER + |r.key|..n] == r.value
    ensures Fetch(x[..4]) == crc(x[4..HEADER] + x[HEADER..n])
  {
    var h := x[..HEADER];
    assert h[..4] == x[..4] && h[4..8] == x[4..8] && h[10..18] == x[10..18] && h[18..22] == x[18..22] && h[22..26] == x[22..26];
    Powers();
    PutFetch(x[10..18]);
    var k := HeaderOf(h).klen;
    assert x[HEADER..n][..k] == x[HEADER..HEADER + k] && x[HEADER..n][k..] == x[HEADER + k..n];
  }

  lemma FieldsFrom(x: Bytes, r: Record)
    requires |x| >= HEADER && Fetch(x[4..8]) == WAL_MAGIC && x[8] == WAL_VERSION && x[9] == (if r.delete then 2 else 1)
    requires Fetch(x[10..18]) == r.seqno && Fetch(x[18..22]) == |r.key| && Fetch(x[22..26]) == |r.value|
    ensures x[4..8] + [x[8]] + [x[9]] + x[10..18] + x[18..22] + x[22..26] == Fields(r)
  {
    PutFetch(x[4..8]);
    PutFetch(x[10..18]);
    PutFetch(x[18..22]);
    PutFetch(x[22..26]);
  }

  /** A replay takes a record off the front of some bytes exactly when they start with the bytes of that
      record: none is ever made up from anything else. */
  lemma GotIffEncoded(crc: Checksum, x: Bytes, r: Record, n: nat)
    ensures First(crc, x) == Got(r, n) <==> Wide(r) && Bounded(r) && n == |EncodeRecord(crc, r)| <= |x| && x[..n] == EncodeRecord(crc, r)
  {
    if First(crc, x) == Got(r, n) {
      GotFields(crc, x, r, n);
      FieldsFrom(x, r);
      Pieces(x, HEADER + |r.key|, n);
      PutFetch(x[..4]);
    }
    if Wide(r) && Bounded(r) && n == |EncodeRecord(crc, r)| <= |x| && x[..n] == EncodeRecord(crc, r) {
      RecordIsRead(crc, r, x[n..]);
      assert x == x[..n] + x[n..];
    }
  }

  // ----- logs -----

  function LogBytes(crc: Checksum, rs: seq<Record>): Bytes {
    if rs == [] then [] else EncodeRecord(crc, rs[0]) + LogBytes(crc, rs[1..])
  }

  predicate Replayable(r: Record) {
    Wide(r) && Bounded(r)
  }

  predicate AllReplayable(rs: seq<Record>) {
    forall i :: 0 <= i < |rs| ==> Replayable(rs[i])
  }

  lemma {:induction false} LogBytesJoin(crc: Checksum, rs: seq<Record>, ts: seq<Record>)
    ensures LogBytes(crc, rs + ts) == LogBytes(crc, rs) + LogBytes(crc, ts)
  {
    if rs == [] {
      assert rs + ts == ts && [] + LogBytes(crc, ts) == LogBytes(crc, ts);
    } else {
      LogBytesJoin(crc, rs[1..], ts);
      assert (rs + ts)[1..] == rs[1..] + ts;
      Rejoin(EncodeRecord(crc, rs[0]), LogBytes(crc, rs[1..]), LogBytes(crc, ts));
    }
  }

  lemma Rejoin(a: Bytes, b: Bytes, c: Bytes)
    ensures a + (b + c) == (a + b) + c
  {
  }

  lemma ReplayOne(crc: Checksum, r: Record, x: Bytes)
    requires Replayable(r)
    ensures Replay(crc, EncodeRecord(crc, r) + x) == Behind([r], |EncodeRecord(crc, r)|, Replay(crc, x))
  {
    RecordIsRead(crc, r, x);
  }

  lemma BehindBehind(r: Record, rs: seq<Record>, n: nat, k: nat, m: Replayed)
    ensures Behind([r], n, Behind(rs, k, m)) == Behind([r] + rs, n + k, m)
  {
    assert [r] + (rs + m.records) == [r] + rs + m.records;
  }

  /** Replaying a log and anything behind it is the log's records and then the replay of what is behind. */
  lemma {:induction false} ReplayOfLog(crc: Checksum, rs: seq<Record>, x: Bytes)
    requires AllReplayable(rs)
    ensures Replay(crc, LogBytes(crc, rs) + x) == Behind(rs, |LogBytes(crc, rs)|, Replay(crc, x))
  {
    if rs == [] {
      assert [] + x == x && [] + Replay(crc, x).records == Replay(crc, x).records;
    } else {
      ReplayOfLog(crc, rs[1..], x);
      Rejoin(EncodeRecord(crc, rs[0]), LogBytes(crc, rs[1..]), x);
      ReplayOne(crc, rs[0], LogBytes(crc, rs[1..]) + x);
      BehindBehind(rs[0], rs[1..], |EncodeRecord(crc, rs[0])|, |LogBytes(crc, rs[1..])|, Replay(crc, x));
      assert [rs[0]] + rs[1..] == rs;
    }
  }

  /** A whole log is replayed to its end. */
  lemma LogIsReplayed(crc: Checksum, rs: seq<Record>)
    requires AllReplayable(rs)
    ensures Replay(crc, LogBytes(crc, rs)) == Replayed(rs, EndOfLog, |LogBytes(crc, rs)|)
  {
    ReplayOfLog(crc, rs, []);
    assert LogBytes(crc, rs) + [] == LogBytes(crc, rs) && rs + [] == rs;
  }

  // ----- torn logs -----

  /** Part of a record is a truncated record, wherever it is cut. */
  lemma CutRecord(crc: Checksum, r: Record, n: nat)
    requires Replayable(r) && 0 < n < |EncodeRecord(crc, r)|
    ensures First(crc, EncodeRecord(crc, r)[..n]) == Ended(End.Truncated)
  {
    if n >= HEADER {
      RecordLayout(Put32(crc(Body(r))), Fields(r), r.key, r.value, []);
      var b := EncodeRecord(crc, r);
      assert b + [] == b && b[..n][..HEADER] == b[..HEADER];
      HeaderIsRead(crc, r);
    }
  }

  /** How many records of the log lie wholly in its first n bytes. */
  function Whole(crc: Checksum, rs: seq<Record>, n: nat): (k: nat)
    ensures k <= |rs|
  {
    if rs == [] || n < |EncodeRecord(crc, rs[0])| then 0 else 1 + Whole(crc, rs[1..], n - |EncodeRecord(crc, rs[0])|)
  }

  /** They are as many as fit: the next one does not. */
  lemma {:induction false} WholeIsMost(crc: Checksum, rs: seq<Record>, n: nat, k: nat)
    requires k <= |rs|
    ensures k <= Whole(crc, rs, n) <==> |LogBytes(crc, rs[..k])| <= n
  {
    if k > 0 {
      assert rs[..k][0] == rs[0] && rs[..k][1..] == rs[1..][..k - 1];
      if n >= |EncodeRecord(crc, rs[0])| {
        WholeIsMost(crc, rs[1..], n - |EncodeRecord(crc, rs[0])|, k - 1);
      }
    }
  }

  function CutAt(crc: Checksum, rs: seq<Record>, n: nat): Replayed {
    var k := Whole(crc, rs, n);
    var size := |LogBytes(crc, rs[..k])|;
    Replayed(rs[..k], if size == n then EndOfLog else End.Truncated, size)
  }

  /** A log cut anywhere replays to exactly the records that lie wholly before the cut, and is never taken for a
      corrupt one. */
  lemma {:induction false} CutLogReplays(crc: Checksum, rs: seq<Record>, n: nat)
    requires AllReplayable(rs) && n <= |LogBytes(crc, rs)|
    ensures Replay(crc, LogBytes(crc, rs)[..n]) == CutAt(crc, rs, n)
    decreases |rs|
  {
    if rs == [] {
      assert LogBytes(crc, rs)[..n] == [];
    } else {
      var b := |EncodeRecord(crc, rs[0])|;
      var tail := LogBytes(crc, rs[1..]);
      if n < b {
        assert LogBytes(crc, rs)[..n] == EncodeRecord(crc, rs[0])[..n] && rs[..0] == [];
        if n > 0 { CutRecord(crc, rs[0], n); }
      } else {
        CutLogReplays(crc, rs[1..], n - b);
        assert LogBytes(crc, rs)[..n] == EncodeRecord(crc, rs[0]) + tail[..n - b];
        ReplayOne(crc, rs[0], tail[..n - b]);
        CutAtNext(crc, rs, n);
      }
    }
  }

  lemma CutAtNext(crc: Checksum, rs: seq<Record>, n: nat)
    requires rs != [] && n >= |EncodeRecord(crc, rs[0])|
    ensures Behind([rs[0]], |EncodeRecord(crc, rs[0])|, CutAt(crc, rs[1..], n - |EncodeRecord(crc, rs[0])|)) == CutAt(crc, rs, n)
  {
    var k := Whole(crc, rs[1..], n - |EncodeRecord(crc, rs[0])|);
    assert rs[..k + 1][0] == rs[0] && rs[..k + 1][1..] == rs[1..][..k] && [rs[0]] + rs[1..][..k] == rs[..k + 1];
  }

  /** Recovery cuts a torn log back to what was replayed; records appended from then on are replayed behind
      those that survived, so any number of unclean stops leaves a readable log. */
  lemma TruncateThenAppend(crc: Checksum, rs: seq<Record>, n: nat, more: seq<Record>)
    requires AllReplayable(rs) && AllReplayable(more) && n <= |LogBytes(crc, rs)|
    ensures var x := LogBytes(crc, rs)[..n]; var ws := rs[..Whole(crc, rs, n)] + more;
            && Replay(crc, x).consumed <= n
            && Replay(crc, x[..Replay(crc, x).consumed] + LogBytes(crc, more)) == Replayed(ws, EndOfLog, |LogBytes(crc, ws)|)
  {
    var k := Whole(crc, rs, n);
    CutLogReplays(crc, rs, n);
    WholeIsMost(crc, rs, n, k);
    StartOfLog(crc, rs, k, n);
    LogBytesJoin(crc, rs[..k], more);
    LogIsReplayed(crc, rs[..k] + more);
  }

  lemma StartOfLog(crc: Checksum, rs: seq<Record>, k: nat, n: nat)
    requires k <= |rs| && |LogBytes(crc, rs[..k])| <= n <= |LogBytes(crc, rs)|
    ensures LogBytes(crc, rs)[..n][..|LogBytes(crc, rs[..k])|] == LogBytes(crc, rs[..k])
  {
    LogBytesJoin(crc, rs[..k], rs[k..]);
    assert rs[..k] + rs[k..] == rs;
  }

  // ----- records behind torn bytes -----

  /** Torn bytes that were not cut off, and bytes appended behind them: if the torn record's header is there, the
      replay ends at it, unless the bytes that took the place of the missing ones have its checksum; it ends as
      in a torn log while there are too few of them, and as in a corrupt one from then on. */
  lemma ReplayBehindTorn(crc: Checksum, rs: seq<Record>, r: Record, t: nat, more: Bytes)
    requires AllReplayable(rs) && Replayable(r) && HEADER <= t < |EncodeRecord(crc, r)|
    ensures var torn := EncodeRecord(crc, r)[..t] + more; var m := Replay(crc, LogBytes(crc, rs) + torn); var size := |EncodeRecord(crc, r)|;
            && (|torn| < size ==> m == Replayed(rs, End.Truncated, |LogBytes(crc, rs)|))
            && (|torn| >= size ==> (m == Replayed(rs, Corruption, |LogBytes(crc, rs)|) <==> crc(torn[4..size]) != crc(Body(r))))
  {
    var torn := EncodeRecord(crc, r)[..t] + more;
    ReplayOfLog(crc, rs, torn);
    FirstBehindTorn(crc, r, t, more);
    assert rs + [] == rs;
    if First(crc, torn).Got? {
      assert Replay(crc, torn).records != [];
    }
  }

  lemma FirstBehindTorn(crc: Checksum, r: Record, t: nat, more: Bytes)
    requires Replayable(r) && HEADER <= t < |EncodeRecord(crc, r)|
    ensures var torn := EncodeRecord(crc, r)[..t] + more; var o := First(crc, torn); var size := |EncodeRecord(crc, r)|;
            && (|torn| < size ==> o == Ended(End.Truncated))
            && (|torn| >= size ==> if crc(torn[4..size]) == crc(Body(r)) then o.Got? else o == Ended(Corruption))
  {
    var torn, size := EncodeRecord(crc, r)[..t] + more, |EncodeRecord(crc, r)|;
    TornHeader(crc, r, t, more);
    if |torn| >= size {
      assert torn[4..HEADER] + torn[HEADER..size] == torn[4..size];
    }
  }

  lemma TornHeader(crc: Checksum, r: Record, t: nat, more: Bytes)
    requires Wide(r) && HEADER <= t <= |EncodeRecord(crc, r)|
    ensures HeaderOf((EncodeRecord(crc, r)[..t] + more)[..HEADER]) == HeaderFor(crc, r)
  {
    var b := EncodeRecord(crc, r);
    RecordLayout(Put32(crc(Body(r))), Fields(r), r.key, r.value, []);
    assert b + [] == b && (b[..t] + more)[..HEADER] == b[..HEADER];
    HeaderIsRead(crc, r);
  }
}
