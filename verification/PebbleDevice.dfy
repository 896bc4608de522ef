/** The files PebbleDB works on, as contracts: what each call may leave on disk when it succeeds and
    when it fails. These stand for wal::Writer, sstable::Writer and util::PosixFile.
    (projects/06-pebbledb/src/wal/writer.cpp, src/sstable/writer.cpp, src/util/posix_file.cpp) */
module PebbleDevice {
  import opened PebbleHistory
  import opened PebbleEngine
  import WalFormat

  /** What a write to the log left there. */
  datatype Left = Nothing | Part(n: nat) | All

  /** The log has no place for keys and values beyond these sizes. */
  predicate TooLarge(r: Record) {
    |r.key| > WalFormat.MAX_KEY || (r.value.Some? && |r.value.value| > WalFormat.MAX_VALUE)
  }

  /** How reading a log ends: at a record boundary, in a torn record, or in bytes that make no sense. */
  datatype ReadResult = EndOfLog | Truncated | Corrupted

  /** A search through tables, newest first, of which those in `bad` cannot be read just now, gets an
      answer: it meets the key, or the end, before a table it cannot read. */
  predicate Answered(layers: seq<Layer>, bad: set<Layer>, k: Key) {
    layers == [] || (layers[0] !in bad && (k in layers[0] || Answered(layers[1..], bad, k)))
  }

  /** `d` is what the files hold; `unreadable` are the tables whose reads fail at the moment. */
  class Device {
    var d: Disk
    var unreadable: set<Layer>
    ghost var failures: nat  // calls that have failed, but for lookups in tables

    constructor ()
      ensures d == INIT.disk
    {
      d, unreadable, failures := INIT.disk, {}, 0;
    }

    /** AddRecord: the record is refused at once for its size; or it is durable; or it is refused, and nothing
        of it was written, or part, or all of it, which its sync then failed to make durable. */
    method AddRecord(n: nat, r: Record) returns (ok: bool, ghost left: Left)
      requires n in d.wals
      modifies this
      ensures ok ==> left.All?
      ensures TooLarge(r) ==> !ok && left.Nothing?
      ensures left.Part? ==> left.n > 0
      ensures d == match left
                   case Nothing => old(d)
                   case Part(k) => old(d).(wals := old(d).wals[n := Torn(old(d).wals[n], k)])
                   case All => old(d).(wals := old(d).wals[n := Append(old(d).wals[n], r)])
      ensures failures == old(failures) + if ok then 0 else 1
    {
      if TooLarge(r) {
        failures := failures + 1;
        return false, Nothing;
      }
      var outcome: Left := *;
      ok := *;
      if ok || outcome.All? {
        outcome := All;
        d := d.(wals := d.wals[n := Append(d.wals[n], r)]);
      } else if outcome.Part? && outcome.n > 0 {
        d := d.(wals := d.wals[n := Torn(d.wals[n], outcome.n)]);
      } else {
        outcome := Nothing;
      }
      left := outcome;
      failures := failures + if ok then 0 else 1;
    }

    /** Reads a log from the start. Whatever is behind torn bytes is taken for the rest of the torn record:
        as long as it does not fill it the record is torn, and from then on corrupt. */
    method ReadWal(n: nat) returns (ok: bool, result: ReadResult, records: seq<Record>)
      requires n in d.wals
      modifies this`failures
      ensures records == d.wals[n].records
      ensures result == if Jammed(d.wals[n]) then Corrupted else if d.wals[n].torn then Truncated else EndOfLog
      ensures failures == old(failures) + if ok then 0 else 1
    {
      ok := *;
      records := d.wals[n].records;
      result := if Jammed(d.wals[n]) then Corrupted else if d.wals[n].torn then Truncated else EndOfLog;
      failures := failures + if ok then 0 else 1;
    }

    /** Reads the manifest, if there is one. */
    method ReadManifest() returns (ok: bool, m: Option<Manifest>)
      modifies this`failures
      ensures ok ==> m == d.manifest
      ensures failures == old(failures) + if ok then 0 else 1
    {
      ok := *;
      m := d.manifest;
      failures := failures + if ok then 0 else 1;
    }

    /** Opens a log for append, creating it when absent; on failure it may or may not exist. */
    method OpenWal(n: nat) returns (ok: bool)
      modifies this
      ensures ok ==> d == OpenedWal(old(d), n)
      ensures !ok ==> d == old(d) || d == OpenedWal(old(d), n)
      ensures failures == old(failures) + if ok then 0 else 1
    {
      ok := *;
      var created := *;
      if ok || created {
        d := OpenedWal(d, n);
      }
      failures := failures + if ok then 0 else 1;
    }

    /** Discards the untrusted bytes behind the records of a torn log; when it fails, it may have done so. */
    method TruncateWal(n: nat) returns (ok: bool)
      requires n in d.wals
      modifies this
      ensures d == old(d) || d == old(d).(wals := old(d).wals[n := Cut(old(d).wals[n])])
      ensures ok ==> d == old(d).(wals := old(d).wals[n := Cut(old(d).wals[n])])
      ensures failures == old(failures) + if ok then 0 else 1
    {
      ok := *;
      var done := *;
      if ok || done {
        d := d.(wals := d.wals[n := Cut(d.wals[n])]);
      }
      failures := failures + if ok then 0 else 1;
    }

    method RemoveWal(n: nat) returns (gone: bool)
      modifies this
      ensures d == if gone then old(d).(wals := old(d).wals - {n}) else old(d)
      ensures failures == old(failures)
    {
      gone := *;
      if gone {
        d := d.(wals := d.wals - {n});
      }
    }

    /** Opens a table file for writing; a file that already has content is refused. */
    method OpenTable(t: nat) returns (ok: bool)
      modifies this
      ensures ok ==> (t in old(d).tables ==> old(d).tables[t] == Unfinished(true))
      ensures ok ==> d == old(d).(tables := old(d).tables[t := Unfinished(true)])
      ensures !ok ==> d == old(d) || ((t in old(d).tables ==> old(d).tables[t] == Unfinished(true)) && d == old(d).(tables := old(d).tables[t := Unfinished(true)]))
      ensures failures == old(failures) + if ok then 0 else 1
    {
      ok := *;
      var created := *;
      if t in d.tables && d.tables[t] != Unfinished(true) {
        failures := failures + 1;
        return false;
      }
      if ok || created {
        d := d.(tables := d.tables[t := Unfinished(true)]);
      }
      failures := failures + if ok then 0 else 1;
    }

    /** Appends to an unfinished table file. */
    method WriteTable(t: nat) returns (ok: bool)
      modifies this
      ensures t in d.tables && d == old(d).(tables := old(d).tables[t := d.tables[t]])
      ensures failures == old(failures) + if ok then 0 else 1
    {
      ok := *;
      d := d.(tables := d.tables[t := Unfinished(false)]);
      failures := failures + if ok then 0 else 1;
    }

    /** Writes the rest of a table file and syncs it; on failure its content is not known. */
    method FinishTable(t: nat, layer: Layer) returns (ok: bool)
      modifies this
      ensures ok ==> d == old(d).(tables := old(d).tables[t := Finished(layer)])
      ensures !ok ==> t in d.tables && d == old(d).(tables := old(d).tables[t := d.tables[t]])
      ensures failures == old(failures) + if ok then 0 else 1
    {
      ok := *;
      d := d.(tables := d.tables[t := if ok then Finished(layer) else Unfinished(false)]);
      failures := failures + if ok then 0 else 1;
    }

    /** Opens a finished table for reading. */
    method OpenReader(t: nat) returns (ok: bool)
      modifies this`failures
      ensures failures == old(failures) + if ok then 0 else 1
    {
      ok := *;
      failures := failures + if ok then 0 else 1;
    }

    /** Looks a key up in an open table; a read can fail. */
    method ReadTable(layer: Layer, k: Key) returns (ok: bool, e: Option<Entry>)
      ensures ok <==> layer !in unreadable
      ensures ok ==> e == Lookup([layer], k)
    {
      ok := layer !in unreadable;
      e := Lookup([layer], k);
    }

    /** Creates or empties the scratch manifest. */
    method OpenTmp() returns (ok: bool)
      modifies this
      ensures d == old(d).(tmp := d.tmp)
      ensures failures == old(failures) + if ok then 0 else 1
    {
      ok := *;
      d := d.(tmp := PartialTmp);
      failures := failures + if ok then 0 else 1;
    }

    /** Writes and syncs the scratch manifest. */
    method WriteTmp(m: Manifest) returns (ok: bool)
      modifies this
      ensures ok ==> d == old(d).(tmp := WholeTmp(m))
      ensures !ok ==> d == old(d).(tmp := d.tmp)
      ensures failures == old(failures) + if ok then 0 else 1
    {
      ok := *;
      d := d.(tmp := if ok then WholeTmp(m) else PartialTmp);
      failures := failures + if ok then 0 else 1;
    }

    /** Renames the scratch manifest over the manifest: the publish point. */
    method RenameTmp() returns (ok: bool)
      requires d.tmp.WholeTmp?
      modifies this
      ensures d == if ok then old(d).(manifest := Some(old(d).tmp.m), tmp := NoTmp) else old(d)
      ensures failures == old(failures) + if ok then 0 else 1
    {
      ok := *;
      if ok {
        d := d.(manifest := Some(d.tmp.m), tmp := NoTmp);
      }
      failures := failures + if ok then 0 else 1;
    }

    /** Syncs the directory; nothing this model can see changes. */
    method SyncDirectory() returns (ok: bool)
      modifies this`failures
      ensures failures == old(failures) + if ok then 0 else 1
    {
      ok := *;
      failures := failures + if ok then 0 else 1;
    }
  }
}
