/** The writer and the reader of a write-ahead log.
    (projects/06-pebbledb/src/wal/writer.cpp, src/wal/reader.cpp) */
module WalFile {
  import opened Codec
  import opened WalFormat

  datatype Status = Ok | InvalidArgument | IOError
  datatype SyncPolicy = EveryWrite | Batched | Explicit

  /** At least the first `safe` of the records survive when the file is cut anywhere behind `durable` bytes:
      what a crash leaves is replayed to a prefix that has all of them. */
  lemma CrashKeepsSynced(crc: Checksum, rs: seq<Record>, safe: nat, n: nat)
    requires AllReplayable(rs) && safe <= |rs| && |LogBytes(crc, rs[..safe])| <= n <= |LogBytes(crc, rs)|
    ensures var m := Replay(crc, LogBytes(crc, rs)[..n]);
            && safe <= |m.records| <= |rs| && m.records == rs[..|m.records|] && (m.end == EndOfLog || m.end == End.Truncated)
  {
    CutLogReplays(crc, rs, n);
    WholeIsMost(crc, rs, n, safe);
  }

  /** The file is the log of these records, and all but the last `since` of them lie in its durable bytes. */
  predicate LogOf(crc: Checksum, rs: seq<Record>, since: nat, file: Bytes, durable: nat) {
    IsLog(crc, rs, since, file, durable)
  }

  /** What `LogOf` says; the writer's methods carry it along as one fact and only the lemmas below look inside. */
  predicate IsLog(crc: Checksum, rs: seq<Record>, since: nat, file: Bytes, durable: nat) {
    since <= |rs| && AllReplayable(rs) && file == LogBytes(crc, rs) && |LogBytes(crc, rs[..|rs| - since])| <= durable
  }

  lemma LogSynced(crc: Checksum, rs: seq<Record>, since: nat, file: Bytes, durable: nat)
    requires AllReplayable(rs) && file == LogBytes(crc, rs) && (LogOf(crc, rs, since, file, durable) || durable == |file|)
    ensures LogOf(crc, rs, if durable == |file| then 0 else since, file, durable)
  {
    assert rs[..|rs| - 0] == rs;
  }

  lemma LogGrown(crc: Checksum, rs: seq<Record>, since: nat, file: Bytes, durable: nat, r: Record)
    requires LogOf(crc, rs, since, file, durable) && Replayable(r)
    ensures LogOf(crc, rs + [r], since + 1, file + EncodeRecord(crc, r), durable)
  {
    OneMore(crc, rs, r);
    SameStart(rs, r, |rs| - since);
  }

  lemma OneMore(crc: Checksum, rs: seq<Record>, r: Record)
    ensures LogBytes(crc, rs + [r]) == LogBytes(crc, rs) + EncodeRecord(crc, r)
  {
    LogBytesJoin(crc, rs, [r]);
    LogOfOne(crc, r);
  }

  lemma LogOfOne(crc: Checksum, r: Record)
    ensures LogBytes(crc, [r]) == EncodeRecord(crc, r)
  {
    assert [r][1..] == [] && EncodeRecord(crc, r) + [] == EncodeRecord(crc, r);
  }

  lemma SameStart(rs: seq<Record>, r: Record, k: nat)
    requires k <= |rs|
    ensures (rs + [r])[..k] == rs[..k]
  {
  }

  class LogWriter {
    const crc: Checksum
    const policy: SyncPolicy
    const batchSize: nat
    var file: Bytes
    var recordsWritten: nat
    var recordsSinceSync: nat
    var syncCount: nat
    ghost const before: seq<Record>   // what the log held when it was opened
    ghost var written: seq<Record>    // all records in the log
    ghost var durable: nat            // the bytes that a crash leaves
    ghost var intact: bool            // no append has failed
    ghost var failures: nat           // failed appends and syncs

    ghost predicate Valid()
      reads this
    {
      && |written| == |before| + recordsWritten && recordsSinceSync <= recordsWritten && durable <= |file|
      && (intact ==> LogOf(crc, written, recordsSinceSync, file, durable))
    }

    /** Writer::Open on a log that holds the records `rs`, all of them durable. */
    constructor (crc: Checksum, policy: SyncPolicy, batchSize: nat, ghost rs: seq<Record>, contents: Bytes)
      requires AllReplayable(rs) && contents == LogBytes(crc, rs)
      ensures Valid() && written == rs && file == contents && durable == |contents| && intact && recordsSinceSync == 0
      ensures this.crc == crc && this.policy == policy && this.batchSize == batchSize
    {
      this.crc, this.policy, this.batchSize := crc, policy, batchSize;
      file, recordsWritten, recordsSinceSync, syncCount := contents, 0, 0, 0;
      before, written, durable, intact, failures := rs, rs, |contents|, true, 0;
      new;
      LogSynced(crc, rs, 0, contents, |contents|);
    }

    /** PosixFile::Append: all of it, or an error and perhaps some of it. */
    method AppendFile(b: Bytes) returns (ok: bool)
      modifies this`file, this`intact, this`failures
      ensures |old(file)| <= |file| && failures == old(failures) + if ok then 0 else 1
      ensures ok ==> file == old(file) + b && intact == old(intact)
      ensures !ok ==> !intact && exists k: nat :: k <= |b| && file == old(file) + b[..k]
    {
      ok := *;
      var some: nat :| some <= |b|;
      file := file + if ok then b else b[..some];
      intact, failures := intact && ok, failures + if ok then 0 else 1;
    }

    /** PosixFile::Sync: everything written so far is durable, or an error. */
    method SyncFile() returns (ok: bool)
      modifies this`durable, this`failures
      ensures durable == (if ok then |file| else old(durable)) && failures == old(failures) + if ok then 0 else 1
    {
      ok := *;
      durable, failures := if ok then |file| else durable, failures + if ok then 0 else 1;
    }

    /** Makes everything written so far durable, or fails and promises nothing. */
    method Sync() returns (s: Status)
      requires Valid()
      modifies this`recordsSinceSync, this`syncCount, this`durable, this`failures
      ensures Valid() && s != InvalidArgument && failures == old(failures) + if s == Ok then 0 else 1
      ensures s == Ok ==> durable == |file| && recordsSinceSync == 0 && syncCount == old(syncCount) + 1
      ensures s != Ok ==> recordsSinceSync == old(recordsSinceSync) && syncCount == old(syncCount) && durable == old(durable)
    {
      var ok := SyncFile();
      if !ok {
        return IOError;
      }
      syncCount, recordsSinceSync := syncCount + 1, 0;
      if intact {
        LogSynced(crc, written, 0, file, durable);
      }
      s := Ok;
    }

    /** AddRecord. A record that a reader would refuse is refused before anything is written. Success means the
        record is in the log and as durable as the policy says; an error means that the log is torn, or that
        the record is in it and its sync has failed. */
    method AddRecord(r: Record) returns (s: Status)
      requires Valid() && r.seqno < U64
      modifies this
      ensures Valid()
      ensures s == InvalidArgument <==> !Bounded(Stored(r))
      ensures s == InvalidArgument ==> file == old(file) && written == old(written) && durable == old(durable) && intact == old(intact)
      ensures s == Ok ==> written == old(written) + [Stored(r)] && intact == old(intact)
      ensures s == Ok && policy == EveryWrite ==> durable == |file| && recordsSinceSync == 0
      ensures s == Ok && policy == Batched && batchSize > 0 ==> recordsSinceSync < batchSize
      ensures s == Ok ==> syncCount == old(syncCount) + if policy == EveryWrite || (policy == Batched && old(recordsSinceSync) + 1 >= batchSize) then 1 else 0
      ensures s == IOError <==> failures > old(failures)
      ensures s == IOError ==> (written == old(written) && !intact) || (written == old(written) + [Stored(r)] && intact == old(intact))
    {
      if |r.key| > MAX_KEY || (!r.delete && |r.value| > MAX_VALUE) {
        return InvalidArgument;
      }
      var ok := AppendRecord(Stored(r));
      if !ok {
        return IOError;
      }
      s := Ok;
      if policy == EveryWrite || (policy == Batched && recordsSinceSync >= batchSize) {
        s := Sync();
      }
    }

    method AppendRecord(r: Record) returns (ok: bool)
      requires Valid() && Replayable(r)
      modifies this`file, this`intact, this`written, this`recordsWritten, this`recordsSinceSync, this`failures
      ensures Valid() && failures == old(failures) + if ok then 0 else 1
      ensures ok ==> written == old(written) + [r] && intact == old(intact) && recordsSinceSync == old(recordsSinceSync) + 1
      ensures !ok ==> written == old(written) && !intact && recordsSinceSync == old(recordsSinceSync)
    {
      ghost var was := file;
      ok := AppendFile(EncodeRecord(crc, r));
      if ok {
        if intact {
          LogGrown(crc, written, recordsSinceSync, was, durable, r);
        }
        written := written + [r];
        recordsWritten, recordsSinceSync := recordsWritten + 1, recordsSinceSync + 1;
      }
    }

    /** A crash, whatever it leaves behind the durable bytes, loses at most the records since the last sync. */
    lemma AfterCrash(n: nat)
      requires Valid() && intact && durable <= n <= |file|
      ensures var m := Replay(crc, file[..n]);
              && |written| - recordsSinceSync <= |m.records| <= |written| && m.records == written[..|m.records|]
              && (m.end == EndOfLog || m.end == End.Truncated)
    {
      CrashKeepsSynced(crc, written, |written| - recordsSinceSync, n);
    }
  }

  /** What a reader at `at` makes of a header and the payload behind it, if the header makes sense. */
  function BodyIn(crc: Checksum, file: Bytes, at: nat): Outcome
    requires at + HEADER <= |file|
  {
    var header := file[at..at + HEADER];
    var h := HeaderOf(header);
    var n := h.klen + h.vlen;
    if at + HEADER + n > |file| then Ended(End.Truncated) else DecodeBody(crc, h, header[4..], file[at + HEADER..at + HEADER + n])
  }

  lemma FirstIn(crc: Checksum, file: Bytes, at: nat)
    requires at <= |file|
    ensures at + HEADER <= |file| ==>
              First(crc, file[at..]) == (match HeaderError(HeaderOf(file[at..at + HEADER])) case Some(e) => Ended(e) case None => BodyIn(crc, file, at))
    ensures at + HEADER > |file| ==> First(crc, file[at..]) == Ended(if at == |file| then EndOfLog else End.Truncated)
  {
    if at + HEADER <= |file| {
      var x, h := file[at..], HeaderOf(file[at..at + HEADER]);
      assert x[..HEADER] == file[at..at + HEADER] && x[4..HEADER] == file[at..at + HEADER][4..];
      var n := HEADER + h.klen + h.vlen;
      if at + n <= |file| { assert x[HEADER..n] == file[at + HEADER..at + n]; }
    }
  }

  class LogReader {
    const crc: Checksum
    const file: Bytes
    var position: nat
    var exhausted: bool
    var terminal: End
    var consumed: nat
    ghost var failed: bool  // a read has failed

    ghost predicate Valid()
      reads this
    {
      consumed <= position <= |file| && (!exhausted ==> position == consumed && !failed)
    }

    constructor (crc: Checksum, file: Bytes)
      ensures Valid() && !exhausted && consumed == 0 && !failed && this.crc == crc && this.file == file
    {
      this.crc, this.file, position, exhausted, terminal, consumed, failed := crc, file, 0, false, EndOfLog, 0, false;
    }

    /** PosixFile::Read: up to n bytes, fewer only at the end of the file; or an error. */
    method Read(n: nat) returns (ok: bool, b: Bytes)
      requires position <= |file|
      modifies this`position, this`failed
      ensures ok ==> position == if n <= |file| - old(position) then old(position) + n else |file|
      ensures ok ==> b == file[old(position)..position] && failed == old(failed)
      ensures !ok ==> failed && position == old(position)
    {
      ok := *;
      b := [];
      if ok {
        var end := if n <= |file| - position then position + n else |file|;
        b := file[position..end];
        position := end;
      } else {
        failed := true;
      }
    }

    method Stop(end: End) returns (o: Outcome)
      modifies this`exhausted, this`terminal
      ensures exhausted && terminal == end && o == Ended(end)
    {
      exhausted, terminal := true, end;
      o := Ended(end);
    }

    /** ReadNext: the first record of what has not been consumed, or why there is none; the same end for good
        from then on. */
    method ReadNext() returns (o: Outcome)
      requires Valid()
      modifies this
      ensures Valid() && o.Ended? == exhausted
      ensures exhausted ==> o == Ended(terminal) && consumed == old(consumed)
      ensures old(exhausted) ==> terminal == old(terminal) && failed == old(failed)
      ensures !old(exhausted) && !failed ==> o == First(crc, file[old(consumed)..])
      ensures !old(exhausted) && failed ==> o == Ended(Corruption)
      ensures o.Got? ==> consumed == old(consumed) + o.size
    {
      if exhausted {
        return Ended(terminal);
      }
      FirstIn(crc, file, consumed);
      var ok, header := Read(HEADER);
      if !ok {
        o := Stop(Corruption);
      } else if header == [] {
        o := Stop(EndOfLog);
      } else if |header| < HEADER {
        o := Stop(End.Truncated);
      } else {
        var e := HeaderError(HeaderOf(header));
        if e.Some? {
          o := Stop(e.value);
        } else {
          o := ReadBody(header);
        }
      }
    }

    /** The rest of ReadNext, behind a header that makes sense. */
    method ReadBody(header: Bytes) returns (o: Outcome)
      requires !exhausted && !failed && consumed + HEADER == position <= |file| && header == file[consumed..position]
      requires HeaderError(HeaderOf(header)) == None
      modifies this
      ensures Valid() && o.Ended? == exhausted
      ensures exhausted ==> o == Ended(terminal) && consumed == old(consumed)
      ensures if failed then o == Ended(Corruption) else o == BodyIn(crc, file, old(consumed))
      ensures o.Got? ==> consumed == old(consumed) + o.size
    {
      var h := HeaderOf(header);
      var n, ok, payload := h.klen + h.vlen, true, [];
      if n > 0 {
        ok, payload := Read(n);
      }
      if !ok {
        o := Stop(Corruption);
      } else if |payload| < n {
        o := Stop(End.Truncated);
      } else {
        o := DecodeBody(crc, h, header[4..], payload);
        if o.Ended? {
          o := Stop(o.end);
        } else {
          consumed := consumed + HEADER + n;
        }
      }
    }

    /** Replay: from the start, what `WalFormat.Replay` says, with `consumed` the valid prefix; when a read fails,
        the records before it, and a corrupt end. */
    method ReplayAll() returns (rs: seq<Record>, end: End)
      requires Valid() && !exhausted && consumed == 0
      modifies this
      ensures Valid() && exhausted && end == terminal
      ensures !failed ==> Replayed(rs, end, consumed) == Replay(crc, file)
      ensures failed ==> end == Corruption && rs <= Replay(crc, file).records
    {
      rs := [];
      assert file[0..] == file && Behind([], 0, Replay(crc, file)) == Replay(crc, file);
      while !exhausted
        invariant Valid() && (exhausted && failed ==> terminal == Corruption)
        invariant if failed then rs <= Replay(crc, file).records
                  else if exhausted then Replayed(rs, terminal, consumed) == Replay(crc, file)
                  else Behind(rs, consumed, Replay(crc, file[consumed..])) == Replay(crc, file)
        decreases !exhausted, |file| - consumed
      {
        ghost var x := file[consumed..];
        ghost var was := consumed;
        var o := ReadNext();
        if o.Got? {
          assert file[consumed..] == x[o.size..];
          BehindOne(rs, was, o.r, o.size, Replay(crc, x[o.size..]));
          rs := rs + [o.r];
        } else if !failed {
          assert rs + [] == rs;
        }
      }
      end := terminal;
    }
  }

  lemma BehindOne(rs: seq<Record>, at: nat, r: Record, n: nat, m: Replayed)
    ensures Behind(rs, at, Behind([r], n, m)) == Behind(rs + [r], at + n, m)
  {
    assert rs + ([r] + m.records) == rs + [r] + m.records;
  }
}
