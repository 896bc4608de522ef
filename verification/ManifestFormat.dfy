/** The manifest as bytes. (projects/06-pebbledb/src/manifest/format.cpp) */
module ManifestFormat {
  import opened Codec

  datatype TableInfo = TableInfo(fileNumber: nat, level: nat)
  datatype Manifest = Manifest(nextFileNumber: nat, walFileNumber: nat, lastSequence: nat, tables: seq<TableInfo>)

  const MANIFEST_MAGIC := 0x5042_4D46
  const MANIFEST_VERSION := 1
  const HEADER := 37
  const TABLE_ENTRY := 12
  const MAX_TABLES := 0x10_0000

  predicate TableFits(t: TableInfo) {
    t.fileNumber < U64 && t.level < U32
  }

  predicate ManifestFits(m: Manifest) {
    && m.nextFileNumber < U64 && m.walFileNumber < U64 && m.lastSequence < U64 && |m.tables| < U32
    && forall i :: 0 <= i < |m.tables| ==> TableFits(m.tables[i])
  }

  function EncodeTable(t: TableInfo): (b: Bytes)
    ensures |b| == TABLE_ENTRY
  {
    Put64(t.fileNumber) + Put32(t.level)
  }

  function EncodeTables(ts: seq<TableInfo>): (b: Bytes)
    ensures |b| == TABLE_ENTRY * |ts|
  {
    if ts == [] then [] else EncodeTable(ts[0]) + EncodeTables(ts[1..])
  }

  /** The header without the checksum. */
  function Fields(m: Manifest): (b: Bytes)
    ensures |b| == 33
  {
    Put32(MANIFEST_MAGIC) + [MANIFEST_VERSION] + Put64(m.nextFileNumber) + Put64(m.walFileNumber) + Put64(m.lastSequence) + Put32(|m.tables|)
  }

  function Body(m: Manifest): Bytes {
    Fields(m) + EncodeTables(m.tables)
  }

  function EncodeManifest(crc: Checksum, m: Manifest): Bytes {
    Put32(crc(Body(m))) + Body(m)
  }

  // ----- reading -----

  datatype Error = Truncated | BadMagic | UnsupportedVersion | BadTableCount | BadLength | ChecksumMismatch
  datatype Loaded = Loaded(m: Manifest) | Refused(error: Error)

  function DecodeTable(b: Bytes): TableInfo
    requires |b| == TABLE_ENTRY
  {
    TableInfo(Fetch(b[..8]), Fetch(b[8..]))
  }

  function DecodeTables(b: Bytes): seq<TableInfo> {
    if |b| < TABLE_ENTRY then [] else [DecodeTable(b[..TABLE_ENTRY])] + DecodeTables(b[TABLE_ENTRY..])
  }

  function DecodeManifest(crc: Checksum, b: Bytes): Loaded {
    if |b| < HEADER then Refused(Error.Truncated)
    else if Fetch(b[4..8]) != MANIFEST_MAGIC then Refused(BadMagic)
    else if b[8] == 0 || b[8] > MANIFEST_VERSION then Refused(UnsupportedVersion)
    else
      var n := Fetch(b[33..37]);
      if n > MAX_TABLES then Refused(BadTableCount)
      else if |b| < HEADER + n * TABLE_ENTRY then Refused(Error.Truncated)
      else if |b| > HEADER + n * TABLE_ENTRY then Refused(BadLength)
      else if crc(b[4..]) != Fetch(b[..4]) then Refused(ChecksumMismatch)
      else Loaded(Manifest(Fetch(b[9..17]), Fetch(b[17..25]), Fetch(b[25..33]), DecodeTables(b[HEADER..])))
  }

  // ----- tables -----

  lemma TableIsDecoded(t: TableInfo, b: Bytes)
    requires |b| == TABLE_ENTRY
    ensures TableFits(t) && b == EncodeTable(t) ==> DecodeTable(b) == t
    ensures DecodeTable(b) == t ==> TableFits(t) && b == EncodeTable(t)
  {
    Powers();
    if TableFits(t) && b == EncodeTable(t) {
      assert b[..8] == Put64(t.fileNumber) && b[8..] == Put32(t.level);
      FetchPut(t.fileNumber, 8);
      FetchPut(t.level, 4);
    }
    if DecodeTable(b) == t {
      PutFetch(b[..8]);
      PutFetch(b[8..]);
      assert b == b[..8] + b[8..];
    }
  }

  predicate AllTablesFit(ts: seq<TableInfo>) {
    forall i :: 0 <= i < |ts| ==> TableFits(ts[i])
  }

  lemma {:induction false} TablesAreDecoded(ts: seq<TableInfo>)
    requires AllTablesFit(ts)
    ensures DecodeTables(EncodeTables(ts)) == ts
  {
    if ts != [] {
      var b := EncodeTables(ts);
      assert b[..TABLE_ENTRY] == EncodeTable(ts[0]) && b[TABLE_ENTRY..] == EncodeTables(ts[1..]);
      TableIsDecoded(ts[0], b[..TABLE_ENTRY]);
      TablesAreDecoded(ts[1..]);
      assert [ts[0]] + ts[1..] == ts;
    }
  }

  lemma {:induction false} DecodedAreTables(b: Bytes, n: nat)
    requires |b| == n * TABLE_ENTRY
    ensures var ts := DecodeTables(b); |ts| == n && AllTablesFit(ts) && EncodeTables(ts) == b
    decreases n
  {
    if n > 0 {
      assert |b| >= TABLE_ENTRY;
      DecodedAreTables(b[TABLE_ENTRY..], n - 1);
      TableIsDecoded(DecodeTable(b[..TABLE_ENTRY]), b[..TABLE_ENTRY]);
      TablesGoOn(b);
      assert b == b[..TABLE_ENTRY] + b[TABLE_ENTRY..];
    }
  }

  lemma TablesGoOn(b: Bytes)
    requires |b| >= TABLE_ENTRY
    ensures DecodeTables(b)[0] == DecodeTable(b[..TABLE_ENTRY]) && DecodeTables(b)[1..] == DecodeTables(b[TABLE_ENTRY..])
  {
  }

  // ----- the header -----

  lemma FieldsLayout(m: Bytes, v: Bytes, a: Bytes, b: Bytes, c: Bytes, n: Bytes)
    requires |m| == 4 && |v| == 1 && |a| == 8 && |b| == 8 && |c| == 8 && |n| == 4
    ensures var x := m + v + a + b + c + n;
            x[..4] == m && x[4] == v[0] && x[5..13] == a && x[13..21] == b && x[21..29] == c && x[29..33] == n
  {
  }

  lemma FieldsAre(m: Manifest)
    requires ManifestFits(m)
    ensures var b := Fields(m);
            && Fetch(b[..4]) == MANIFEST_MAGIC && b[4] == MANIFEST_VERSION && Fetch(b[5..13]) == m.nextFileNumber
            && Fetch(b[13..21]) == m.walFileNumber && Fetch(b[21..29]) == m.lastSequence && Fetch(b[29..33]) == |m.tables|
  {
    FieldsLayout(Put32(MANIFEST_MAGIC), [MANIFEST_VERSION], Put64(m.nextFileNumber), Put64(m.walFileNumber), Put64(m.lastSequence), Put32(|m.tables|));
    Powers();
    FetchPut(MANIFEST_MAGIC, 4);
    FetchPut(m.nextFileNumber, 8);
    FetchPut(m.walFileNumber, 8);
    FetchPut(m.lastSequence, 8);
    FetchPut(|m.tables|, 4);
  }

  lemma FileLayout(c: Bytes, f: Bytes, t: Bytes)
    requires |c| == 4 && |f| == 33
    ensures var x := c + (f + t);
            && x[..4] == c && x[4..] == f + t && x[4..8] == f[..4] && x[8] == f[4] && x[9..17] == f[5..13] && x[17..25] == f[13..21]
            && x[25..33] == f[21..29] && x[33..37] == f[29..33] && x[37..] == t
  {
  }

  /** A manifest is loaded as it was saved if it has at most MAX_TABLES tables; saving one with more, which
      nothing prevents, leaves a manifest that is refused. */
  lemma SavedIsLoaded(crc: Checksum, m: Manifest)
    requires ManifestFits(m)
    ensures DecodeManifest(crc, EncodeManifest(crc, m)) == if |m.tables| <= MAX_TABLES then Loaded(m) else Refused(BadTableCount)
  {
    FileLayout(Put32(crc(Body(m))), Fields(m), EncodeTables(m.tables));
    FieldsAre(m);
    TablesAreDecoded(m.tables);
    Powers();
    FetchPut(crc(Body(m)), 4);
  }

  lemma Pieces(b: Bytes)
    requires |b| >= HEADER
    ensures b == b[..4] + b[4..]
    ensures b[4..] == b[4..8] + [b[8]] + b[9..17] + b[17..25] + b[25..33] + b[33..37] + b[37..]
  {
  }

  /** And nothing else is loaded: a manifest is loaded from exactly the bytes it is saved as. */
  lemma LoadedIffSaved(crc: Checksum, m: Manifest, b: Bytes)
    ensures DecodeManifest(crc, b) == Loaded(m) <==> ManifestFits(m) && |m.tables| <= MAX_TABLES && b == EncodeManifest(crc, m)
  {
    if DecodeManifest(crc, b) == Loaded(m) {
      LoadedFields(crc, m, b);
      Pieces(b);
      PutFetch(b[..4]);
    }
    if ManifestFits(m) && |m.tables| <= MAX_TABLES && b == EncodeManifest(crc, m) {
      SavedIsLoaded(crc, m);
    }
  }

  lemma LoadedFields(crc: Checksum, m: Manifest, b: Bytes)
    requires DecodeManifest(crc, b) == Loaded(m)
    ensures |b| >= HEADER && ManifestFits(m) && |m.tables| <= MAX_TABLES
    ensures b[4..8] + [b[8]] + b[9..17] + b[17..25] + b[25..33] + b[33..37] == Fields(m)
    ensures b[37..] == EncodeTables(m.tables)
  {
    Powers();
    PutFetch(b[4..8]);
    PutFetch(b[9..17]);
    PutFetch(b[17..25]);
    PutFetch(b[25..33]);
    PutFetch(b[33..37]);
    DecodedAreTables(b[37..], Fetch(b[33..37]));
  }
}
