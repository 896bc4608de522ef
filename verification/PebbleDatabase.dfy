/** The database object itself. Every change it makes to the disk is one action of PebbleEngine, so
    whatever PebbleGuarantees proves of all runs holds of this code, at every point where it could be
    interrupted. (projects/06-pebbledb/src/db.cpp, projects/06-pebbledb/src/manifest/manifest.cpp) */
module PebbleDatabase {
  import opened PebbleHistory
  import opened PebbleEngine
  import opened PebbleEngineProofs
  import opened PebbleGuarantees
  import opened PebbleLedger
  import opened PebbleMemTable
  import opened PebbleDevice

  datatype Status = Ok | Missing | InvalidArgument | IOError | Corruption

  class DB {
    const device: Device
    const threshold: nat
    const memtables: MemTableList
    var tables: seq<Layer>  // oldest first
    var manifest: Manifest
    var wal: nat
    var nextFile: nat
    var nextSeq: nat
    var liveKeys: int
    ghost var acts: seq<Action>
    ghost var up: bool
    ghost var pending: Option<Record>
    ghost var pc: Pc
    ghost var misread: nat

    /** The process state this object stands for. */
    ghost function State(): Proc
      reads this, memtables, memtables.active
    {
      Proc(memtables.active.table, memtables.frozen, tables, manifest, wal, nextFile, nextSeq,
           liveKeys, misread, pending, pc)
    }

    ghost function Footprint(): set<object>
      reads this, memtables
    {
      {this, device} + memtables.Repr() + {memtables}
    }

    /** Disk and process are where the run so far has brought them. */
    ghost predicate Tracks()
      reads this, device, memtables, memtables.Repr()
    {
      && memtables.Valid()
      && IsRun(acts)
      && After(acts).disk == device.d
      && After(acts).proc == if up then Some(State()) else None
    }

    /** Between calls. */
    ghost predicate Valid()
      reads this, device, memtables, memtables.Repr()
    {
      Tracks() && up && pc == Idle && pending == None
    }

    /** What a reader sees. */
    ghost function Contents(): map<Key, Bytes>
      reads this, memtables, memtables.active
    {
      View(Layers(State()))
    }

    constructor (device: Device, threshold: nat, ghost acts: seq<Action>)
      requires IsRun(acts) && After(acts).disk == device.d && After(acts).proc == None
      ensures this.device == device && this.acts == acts && fresh(this) && fresh(memtables) && fresh(memtables.Repr())
      ensures Tracks() && !up && pc == Idle && pending == None && misread == 0 && nextFile == 1 && tables == []
      ensures memtables.frozen == [] && memtables.active.table == map[] && manifest == Manifest(1, 0, 0, [])
    {
      this.device, this.threshold, this.acts := device, threshold, acts;
      memtables := new MemTableList();
      tables, manifest, wal, nextFile, nextSeq, liveKeys := [], Manifest(1, 0, 0, []), 0, 1, 1, 0;
      up, pending, pc, misread := false, None, Idle, 0;
    }

    /** Notes an action that has just been performed. */
    ghost method Note(a: Action)
      requires IsRun(acts) && Enabled(After(acts), a)
      modifies this`acts
      ensures acts == old(acts) + [a] && IsRun(acts) && After(acts) == Effect(old(After(acts)), a)
      ensures !a.Do? ==> Accepted(acts) == old(Accepted(acts))
      ensures a.Do? && !a.s.LogAppend? ==> Accepted(acts) == old(Accepted(acts))
      ensures a.Do? && a.s.LogAppend? ==> Accepted(acts) == old(Accepted(acts)) + [a.s.r]
      ensures Account(acts) == Entered(old(Account(acts)), a)
    {
      Extend(acts, a);
      AccountStep(acts, a);
      assert (acts + [a])[..|acts|] == acts;
      acts := acts + [a];
    }

    /** The manifest in memory is the one on disk, and the log number is the one it names. */
    lemma TrackedManifest()
      requires Tracks() && up
      ensures device.d.manifest == Some(manifest) && wal == manifest.wal
    {
      NumbersEverywhere(acts);
    }

    /** Publishes a manifest: write the scratch file, sync it, rename it, sync the directory.
        `published` says whether the rename happened; only then is the manifest on disk changed.
        `publish` is the action the rename performs. */
    method SaveManifest(m: Manifest, ghost publish: Action) returns (ok: bool, published: bool)
      requires Tracks() && !publish.Touch?
      requires var w := After(acts); var ready := w.(disk := w.disk.(tmp := WholeTmp(m)));
        Enabled(ready, publish) && Effect(ready, publish).disk == w.disk.(manifest := Some(m), tmp := NoTmp)
        && (publish.Do? ==> !publish.s.LogAppend?)
      modifies device, this`acts
      ensures ok ==> published
      ensures IsRun(acts) && After(acts).disk == device.d && Accepted(acts) == old(Accepted(acts))
      ensures Account(acts) == if published then Entered(old(Account(acts)), publish) else old(Account(acts))
      ensures var w := old(After(acts));
        After(acts) == if published then Effect(w.(disk := w.disk.(tmp := WholeTmp(m))), publish) else w.(disk := w.disk.(tmp := device.d.tmp))
      ensures published ==> device.d == old(device.d).(manifest := Some(m), tmp := NoTmp)
      ensures device.failures >= old(device.failures) + if ok then 0 else 1
    {
      published := false;
      ok := device.OpenTmp();
      Note(Touch(device.d.tmp));
      if !ok { return; }
      ok := device.WriteTmp(m);
      Note(Touch(device.d.tmp));
      if !ok { return; }
      ok := device.RenameTmp();
      if !ok { return; }
      Note(publish);
      published := true;
      ok := device.SyncDirectory();
    }

    /** A lookup of the key ends before it meets a table that cannot be read. */
    ghost predicate Findable(key: Key)
      reads this, device, memtables, memtables.Repr()
    {
      Lookup([memtables.active.table] + memtables.frozen, key).Some? || Answered(Reverse(tables), device.unreadable, key)
    }

    /** The merged lookup: MemTables first, then the tables from newest to oldest. A table that cannot
        be read stops the search. */
    method Search(key: Key) returns (ok: bool, e: Option<Entry>)
      requires memtables.Valid()
      ensures ok <==> Findable(key)
      ensures ok ==> e == Lookup(Layers(State()), key)
    {
      LookupConcat([memtables.active.table] + memtables.frozen, Reverse(tables), key);
      var result, value, seqno := memtables.Get(key);
      if result != LookupResult.NotFound {
        return true, Some(Entry(seqno, if result == Found then Some(value) else None));
      }
      var i := |tables|;
      assert tables[..i] == tables;
      while i > 0
        invariant 0 <= i <= |tables|
        invariant Lookup(Layers(State()), key) == Lookup(Reverse(tables[..i]), key)
        invariant Findable(key) <==> Answered(Reverse(tables[..i]), device.unreadable, key)
      {
        i := i - 1;
        ok, e := device.ReadTable(tables[i], key);
        assert tables[..i + 1] == tables[..i] + [tables[i]];
        ReverseAppend(tables[..i], tables[i]);
        assert Reverse(tables[..i + 1])[1..] == Reverse(tables[..i]);
        if !ok || e != None {
          return;
        }
      }
      ok, e := true, None;
    }

    /** Reads a key. The answer is that of the plain map; a failed table read is reported as such. */
    method Get(key: Key) returns (s: Status, value: Bytes)
      requires Valid()
      ensures s == IOError <==> !Findable(key)
      ensures s != InvalidArgument
      ensures s == Ok ==> key in Contents() && value == Contents()[key]
      ensures s == Missing ==> key !in Contents()
      ensures s != Corruption
    {
      LiveKeysAreLive(Layers(State()), key);
      var ok, e := Search(key);
      value := "";
      if !ok {
        return IOError, value;
      }
      if Live(e) {
        return Ok, e.value.value.value;
      }
      s := Missing;
    }

    /** The lookup behind the live-key counter; a read that fails counts as not live. */
    method IsKeyCurrentlyLive(key: Key) returns (live: bool, ghost wasLive: bool, ghost missed: bool)
      requires memtables.Valid()
      ensures wasLive == Live(Lookup(Layers(State()), key)) && (missed <==> !Findable(key))
      ensures live == (wasLive && !missed)
    {
      wasLive := Live(Lookup(Layers(State()), key));
      var ok, e := Search(key);
      live := ok && Live(e);
      missed := !ok;
    }

    /** Appends a record to the log; a write that does not reach it is not applied. */
    method Log(r: Record) returns (s: Status)
      requires Valid() && r.seqno == nextSeq
      modifies device, this`acts, this`pending
      ensures Tracks()
      ensures s == Ok || s == InvalidArgument || s == IOError
      ensures s == InvalidArgument <==> TooLarge(r)
      ensures s == InvalidArgument ==> acts == old(acts)
      ensures pending == if s == Ok then Some(r) else None
      ensures Accepted(acts) == old(Accepted(acts)) + if s == Ok then [r] else []
      ensures s != Ok ==> Refusal(old(acts), acts, r)
      ensures device.failures >= old(device.failures) + if s == Ok then 0 else 1
    {
      Running(acts);
      ghost var w := After(acts);
      var ok;
      ghost var left;
      ok, left := device.AddRecord(wal, r);
      s := if ok then Ok else if TooLarge(r) then InvalidArgument else IOError;
      if ok {
        Appending(acts, r);
        acts, pending := acts + [Do(LogAppend(r))], Some(r);
      } else if left.Part? {
        Tearing(acts, left.n);
        acts := acts + [Do(LogTear(left.n))];
      } else if left.All? {
        Refusing(acts, r);
        acts := acts + [Do(LogUnsynced(r))];
      }
    }

    /** The logged write has entered the active MemTable and the counter has been adjusted. */
    ghost method NoteAbsorbed(before: Proc, live: bool, missed: bool)
      requires memtables.Valid() && up && IsRun(acts) && After(acts).disk == device.d && After(acts).proc == Some(before)
      requires before.pc == Idle && before.pending.Some? && State() == Absorbed(before, live, missed)
      requires live == Live(Lookup(Layers(before), before.pending.value.key))
      modifies this`acts
      ensures Valid() && Contents() == Write(View(Layers(before)), before.pending.value)
      ensures Accepted(acts) == old(Accepted(acts))
    {
      AbsorbingIsWriting(before, live, missed);
      Note(Do(Absorb(missed)));
    }

    /** The end of Put and Delete: a flush when the active MemTable has reached the threshold. */
    method FlushWhenLarge() returns (s: Status)
      requires Valid() && memtables.active.table != map[]
      modifies this, device, memtables
      ensures Valid() && Contents() == old(Contents()) && Accepted(acts) == old(Accepted(acts))
      ensures Settled(old(State()), State(), device.d, threshold, s)
      ensures device.failures >= old(device.failures) + if s == Ok then 0 else 1
    {
      s := Ok;
      if memtables.active.usage >= threshold {
        s := FlushLocked();
      }
    }

    /** What the end of Put and Delete comes to. Below the threshold nothing happens and the answer is Ok. At or
        above it the MemTable is frozen, and the answer is Ok only when everything has become tables, in order,
        and the log is new and empty. */
    static ghost predicate Settled(p: Proc, q: Proc, d: Disk, threshold: nat, s: Status) {
      if Cost(p.active) < threshold then s == Ok && q == p
      else
        && q.active == map[] && (s == Ok || s == IOError)
        && (s == Ok ==> q.imms == [] && q.tables == Sealed(p) + [p.active] && q.wal > p.wal && q.wal in d.wals && d.wals[q.wal] == EMPTY_WAL)
    }

    /** The same for the write as a whole: the MemTable has taken it first. */
    static ghost predicate Settles(p: Proc, r: Record, q: Proc, d: Disk, threshold: nat, s: Status) {
      exists g: Proc :: Grown(p, r, g) && Settled(g, q, d, threshold, s)
    }

    /** The active MemTable has taken a write; tables, logs and frozen MemTables are as they were. */
    static ghost predicate Grown(p: Proc, r: Record, g: Proc) {
      g.active == Insert(p.active, r) && g.imms == p.imms && g.tables == p.tables && g.manifest == p.manifest && g.wal == p.wal
    }

    /** The part of Put that follows the log: MemTable, sequence number, counter. `live` is what the
        lookup said, `wasLive` and `missed` are why. */
    method ApplyPut(key: Key, value: Bytes, live: bool, ghost wasLive: bool, ghost missed: bool)
      requires memtables.Valid() && pending == Some(Record(nextSeq, key, Some(value))) && live == (wasLive && !missed)
      modifies this`nextSeq, this`liveKeys, this`misread, this`pending, memtables.active
      ensures memtables.Valid() && State() == Absorbed(old(State()), wasLive, missed)
    {
      memtables.Put(key, value, nextSeq);
      liveKeys := liveKeys + if live then 0 else 1;
      misread := misread + if wasLive && missed then 1 else 0;
      nextSeq, pending := nextSeq + 1, None;
    }

    /** Puts a key: on the plain map, an overwrite. `accepted` says whether the log took the write; a
        write it took stays, even when the flush it sets off fails and that failure is returned. */
    method Put(key: Key, value: Bytes) returns (s: Status, ghost accepted: bool)
      requires Valid()
      modifies this, device, memtables, memtables.Repr()
      ensures Valid()
      ensures s == Ok ==> accepted
      ensures accepted ==> Contents() == old(Contents())[key := value]
      ensures accepted ==> Accepted(acts) == old(Accepted(acts)) + [Record(old(nextSeq), key, Some(value))]
      ensures !accepted ==> State() == old(State()) && Refusal(old(acts), acts, Record(nextSeq, key, Some(value)))
      ensures s == InvalidArgument <==> TooLarge(Record(old(nextSeq), key, Some(value)))
      ensures s == InvalidArgument ==> !accepted && acts == old(acts) && device.d == old(device.d)
      ensures !accepted ==> Contents() == old(Contents()) && Accepted(acts) == old(Accepted(acts))
      ensures accepted ==> Settles(old(State()), Record(old(nextSeq), key, Some(value)), State(), device.d, threshold, s)
      ensures s == IOError ==> device.failures > old(device.failures)
    {
      s := Log(Record(nextSeq, key, Some(value)));
      accepted := s == Ok;
      if s != Ok {
        return;
      }
      ghost var before := State();
      var live, wasLive, missed := IsKeyCurrentlyLive(key);
      ApplyPut(key, value, live, wasLive, missed);
      NoteAbsorbed(before, wasLive, missed);
      ghost var grown := State();
      s := FlushWhenLarge();
      assert Grown(old(State()), before.pending.value, grown);
    }

    /** The part of Delete that follows the log: MemTable, sequence number, counter. `live` is what the
        lookup said, `wasLive` and `missed` are why. */
    method ApplyDelete(key: Key, live: bool, ghost wasLive: bool, ghost missed: bool)
      requires memtables.Valid() && pending == Some(Record(nextSeq, key, None)) && live == (wasLive && !missed)
      modifies this`nextSeq, this`liveKeys, this`misread, this`pending, memtables.active
      ensures memtables.Valid() && State() == Absorbed(old(State()), wasLive, missed)
    {
      memtables.Delete(key, nextSeq);
      liveKeys := liveKeys - if live then 1 else 0;
      misread := misread + if wasLive && missed then 1 else 0;
      nextSeq, pending := nextSeq + 1, None;
    }

    /** Deletes a key: on the plain map, a removal, also when the key is not there. */
    method Delete(key: Key) returns (s: Status, ghost accepted: bool)
      requires Valid()
      modifies this, device, memtables, memtables.Repr()
      ensures Valid()
      ensures s == Ok ==> accepted
      ensures accepted ==> Contents() == old(Contents()) - {key}
      ensures accepted ==> Accepted(acts) == old(Accepted(acts)) + [Record(old(nextSeq), key, None)]
      ensures !accepted ==> State() == old(State()) && Refusal(old(acts), acts, Record(nextSeq, key, None))
      ensures s == InvalidArgument <==> TooLarge(Record(old(nextSeq), key, None))
      ensures s == InvalidArgument ==> !accepted && acts == old(acts) && device.d == old(device.d)
      ensures !accepted ==> Contents() == old(Contents()) && Accepted(acts) == old(Accepted(acts))
      ensures accepted ==> Settles(old(State()), Record(old(nextSeq), key, None), State(), device.d, threshold, s)
      ensures s == IOError ==> device.failures > old(device.failures)
    {
      s := Log(Record(nextSeq, key, None));
      accepted := s == Ok;
      if s != Ok {
        return;
      }
      ghost var before := State();
      var live, wasLive, missed := IsKeyCurrentlyLive(key);
      ApplyDelete(key, live, wasLive, missed);
      NoteAbsorbed(before, wasLive, missed);
      ghost var grown := State();
      s := FlushWhenLarge();
      assert Grown(old(State()), before.pending.value, grown);
    }

    /** Inside a flush: nothing is in flight and the active MemTable is empty. */
    ghost predicate Flushing()
      reads this, device, memtables, memtables.Repr()
    {
      Tracks() && up && pending == None && memtables.active.table == map[]
    }

    /** Notes a step of the running process whose new state the fields already hold. */
    ghost method NoteStep(before: Proc, s: Step)
      requires memtables.Valid() && up && IsRun(acts) && After(acts).proc == Some(before) && !s.LogAppend?
      requires StepEnabled(After(acts).disk, before, s) && StepEffect(After(acts).disk, before, s) == (device.d, State())
      modifies this`acts
      ensures Tracks() && Accepted(acts) == old(Accepted(acts))
    {
      Note(Do(s));
    }

    ghost method Stop()
      requires Tracks() && up && pending == None
      modifies this`acts, this`pc
      ensures Valid() && State() == old(State()).(pc := Idle) && Accepted(acts) == old(Accepted(acts))
    {
      ghost var before := State();
      pc := Idle;
      NoteStep(before, GiveUp);
    }

    /** Takes a file number and writes the oldest frozen MemTable, values and tombstones, to a table
        file of that number; `done` says that the file is complete, synced and readable. */
    method BuildTable() returns (done: bool, t: nat)
      requires Flushing() && (pc == Idle || pc == Published) && memtables.frozen != []
      modifies this`nextFile, this`pc, this`acts, device
      ensures Flushing() && Accepted(acts) == old(Accepted(acts))
      ensures State() == old(State()).(nextFile := nextFile, pc := pc)
      ensures if done then pc == Building(t) && t in device.d.tables && device.d.tables[t] == Finished(memtables.frozen[|memtables.frozen| - 1]) else pc == Idle
      ensures device.d == old(device.d).(tables := device.d.tables)
      ensures device.failures >= old(device.failures) + if done then 0 else 1
    {
      t := nextFile;
      done := TakeTable();
      if done {
        done := FillTable(t);
        if !done { Stop(); }
      }
    }

    method TakeTable() returns (ready: bool)
      requires Flushing() && (pc == Idle || pc == Published) && memtables.frozen != []
      modifies this`nextFile, this`pc, this`acts, device
      ensures Flushing() && Accepted(acts) == old(Accepted(acts))
      ensures State() == old(State()).(nextFile := old(nextFile) + 1, pc := if ready then Building(old(nextFile)) else Idle)
      ensures device.d == old(device.d).(tables := device.d.tables)
      ensures device.failures >= old(device.failures) + if ready then 0 else 1
    {
      ghost var before, d := State(), device.d;
      ready := device.OpenTable(nextFile);
      pc := if ready then Building(nextFile) else Idle;
      nextFile := nextFile + 1;
      NoteStep(before, NewTable(device.d != d || ready, ready));
    }

    /** One write to the table file being built. */
    method AddEntry(t: nat) returns (ok: bool)
      requires Flushing() && pc == Building(t)
      modifies this`acts, device
      ensures Flushing() && Accepted(acts) == old(Accepted(acts)) && State() == old(State())
      ensures device.d == old(device.d).(tables := device.d.tables)
      ensures device.failures >= old(device.failures) + if ok then 0 else 1
    {
      ok := device.WriteTable(t);
      NoteStep(State(), WriteTable(device.d.tables[t]));
    }

    method Finish(t: nat, layer: Layer) returns (ok: bool)
      requires Flushing() && pc == Building(t)
      modifies this`acts, device
      ensures Flushing() && Accepted(acts) == old(Accepted(acts)) && State() == old(State())
      ensures ok ==> t in device.d.tables && device.d.tables[t] == Finished(layer)
      ensures device.d == old(device.d).(tables := device.d.tables)
      ensures device.failures >= old(device.failures) + if ok then 0 else 1
    {
      ok := device.FinishTable(t, layer);
      NoteStep(State(), WriteTable(device.d.tables[t]));
    }

    method FillTable(t: nat) returns (done: bool)
      requires Flushing() && pc == Building(t) && memtables.frozen != []
      modifies this`acts, device
      ensures Flushing() && Accepted(acts) == old(Accepted(acts)) && State() == old(State())
      ensures done ==> t in device.d.tables && device.d.tables[t] == Finished(memtables.frozen[|memtables.frozen| - 1])
      ensures device.d == old(device.d).(tables := device.d.tables)
      ensures device.failures >= old(device.failures) + if done then 0 else 1
    {
      var frozen := memtables.immutables[|memtables.immutables| - 1].table;
      var left := frozen.Keys;
      var added: Layer := map[];
      while left != {}
        invariant Flushing() && Accepted(acts) == old(Accepted(acts)) && State() == old(State())
        invariant device.d == old(device.d).(tables := device.d.tables) && device.failures >= old(device.failures)
        invariant left <= frozen.Keys && added == map k | k in frozen && k !in left :: frozen[k]
        decreases left
      {
        var k :| k in left;
        done := AddEntry(t);
        if !done { return; }
        added := added[k := frozen[k]];
        left := left - {k};
      }
      assert added == frozen;
      done := Finish(t, added);
      if done {
        done := device.OpenReader(t);
      }
    }

    method AdoptTable(m: Manifest)
      requires memtables.Valid() && memtables.frozen != []
      modifies this`tables, this`manifest, this`pc, memtables`immutables, memtables`frozen
      ensures memtables.Valid() && State() == Adopted(old(State()), m)
    {
      var frozen := memtables.immutables[|memtables.immutables| - 1];
      manifest := m;
      tables := tables + [frozen.table];
      memtables.RemoveImmutable(frozen);
      pc := Published;
    }

    /** Publishes the finished table: from the rename on, the manifest and this process list it as the
        newest table, and the MemTable it came from is gone. */
    method PublishTable(t: nat) returns (ok: bool)
      requires Flushing() && pc == Building(t) && memtables.frozen != []
      requires t in device.d.tables && device.d.tables[t] == Finished(memtables.frozen[|memtables.frozen| - 1])
      modifies this`tables, this`manifest, this`pc, this`acts, device, memtables`immutables, memtables`frozen
      ensures Flushing() && Accepted(acts) == old(Accepted(acts))
      ensures ok ==> pc == Published
      ensures State() == if pc == Published then Adopted(old(State()), manifest) else old(State()).(pc := Idle)
      ensures device.failures >= old(device.failures) + if ok then 0 else 1
    {
      ghost var before := State();
      var published, m;
      ok, published, m := ListTable(t);
      if published {
        AdoptTable(m);
        assert Tracks();
      } else {
        Stop();
      }
    }

    /** Saves a manifest that lists the new table. */
    method ListTable(t: nat) returns (ok: bool, published: bool, m: Manifest)
      requires Flushing() && pc == Building(t) && memtables.frozen != []
      requires t in device.d.tables && device.d.tables[t] == Finished(memtables.frozen[|memtables.frozen| - 1])
      modifies this`acts, device
      ensures IsRun(acts) && After(acts).disk == device.d && Accepted(acts) == old(Accepted(acts))
      ensures ok ==> published
      ensures After(acts).proc == Some(if published then Adopted(State(), m) else State())
      ensures device.failures >= old(device.failures) + if ok then 0 else 1
    {
      Running(acts);
      TrackedManifest();
      m := Manifest(nextFile, wal, nextSeq - 1, manifest.tables + [t]);
      TableCanBePublished(After(acts), State(), t);
      ok, published := SaveManifest(m, Do(Step.PublishTable));
    }

    /** Opens a log file under a fresh number. */
    method TakeWal() returns (ready: bool)
      requires Flushing() && pc == Published && memtables.frozen == []
      modifies this`nextFile, this`pc, this`acts, device
      ensures Flushing() && Accepted(acts) == old(Accepted(acts))
      ensures State() == old(State()).(nextFile := old(nextFile) + 1, pc := if ready then Rotating(old(nextFile)) else Idle)
      ensures device.failures >= old(device.failures) + if ready then 0 else 1
    {
      ghost var before, d := State(), device.d;
      ready := device.OpenWal(nextFile);
      pc := if ready then Rotating(nextFile) else Idle;
      nextFile := nextFile + 1;
      NoteStep(before, NewWal(device.d != d || ready, ready));
    }

    /** Points the manifest at the new log; `published` says whether that happened. */
    method SwitchWal(n: nat) returns (ok: bool, published: bool)
      requires Flushing() && pc == Rotating(n)
      modifies this`manifest, this`wal, this`pc, this`acts, device
      ensures Flushing() && Accepted(acts) == old(Accepted(acts))
      ensures ok ==> published
      ensures State() == if published then old(State()).(manifest := manifest, wal := n, pc := Removing(old(wal))) else old(State()).(pc := Idle)
      ensures device.d.wals == old(device.d.wals)
      ensures device.failures >= old(device.failures) + if ok then 0 else 1
    {
      ghost var before := State();
      LogCanBeRotated(After(acts), before, n);
      var m := manifest.(wal := n);
      ok, published := SaveManifest(m, Do(Step.Rotate));
      if published {
        AdoptWal(m, n);
      } else {
        Stop();
      }
    }

    method AdoptWal(m: Manifest, n: nat)
      requires memtables.Valid()
      modifies this`manifest, this`wal, this`pc
      ensures memtables.Valid() && State() == old(State()).(manifest := m, wal := n, pc := Removing(old(wal)))
    {
      pc := Removing(wal);
      manifest := m;
      wal := n;
    }

    /** Deletes the superseded log; that it can fail does not matter. */
    method DropOldWal(old_: nat)
      requires Flushing() && pc == Removing(old_) && wal in device.d.wals
      modifies this`pc, this`acts, device
      ensures Valid() && Accepted(acts) == old(Accepted(acts)) && State() == old(State()).(pc := Idle)
      ensures wal in device.d.wals && device.d.wals[wal] == old(device.d.wals)[wal]
      ensures device.failures >= old(device.failures)
    {
      Running(acts);
      ghost var before := State();
      var gone := device.RemoveWal(old_);
      pc := Idle;
      NoteStep(before, DropWal(gone));
    }

    /** Moves on to a new, empty log once everything the current one holds is in tables. */
    method RotateWal() returns (s: Status)
      requires Flushing() && pc == Published && memtables.frozen == []
      modifies this`nextFile, this`manifest, this`wal, this`pc, this`acts, device
      ensures Valid() && Accepted(acts) == old(Accepted(acts))
      ensures State() == old(State()).(nextFile := old(nextFile) + 1, manifest := manifest, wal := wal, pc := Idle)
      ensures s == Ok ==> wal > old(wal) && wal in device.d.wals && device.d.wals[wal] == EMPTY_WAL
      ensures s == Ok || s == IOError
      ensures device.failures >= old(device.failures) + if s == Ok then 0 else 1
    {
      var n := nextFile;
      var ready := TakeWal();
      if !ready {
        return IOError;
      }
      FreshLog(n);
      var superseded := wal;
      var ok, published := SwitchWal(n);
      if !published {
        return IOError;
      }
      DropOldWal(superseded);
      s := if ok then Ok else IOError;
    }

    lemma FreshLog(n: nat)
      requires Tracks() && up && pc == Rotating(n)
      ensures n > wal && n in device.d.wals && device.d.wals[n] == EMPTY_WAL
    {
      NumbersEverywhere(acts);
    }

    /** Freezes the active MemTable unless it is empty. */
    method FreezeActive()
      requires Valid()
      modifies this`acts, memtables
      ensures Valid() && Accepted(acts) == old(Accepted(acts)) && memtables.active.table == map[]
      ensures State() == if old(memtables.active.table) == map[] then old(State()) else StepEffect(device.d, old(State()), Step.Freeze).1
      ensures old(memtables.active.table) == map[] ==> acts == old(acts)
      ensures fresh(memtables.active) || memtables.active == old(memtables.active)
      ensures forall m :: m in memtables.immutables ==> m in old(memtables.immutables) || m == old(memtables.active)
    {
      if memtables.active.table != map[] {
        ghost var before := State();
        memtables.Freeze();
        NoteStep(before, Step.Freeze);
      }
    }

    lemma FreezingKeepsContents(before: Proc)
      ensures var p := before.(active := map[], imms := [before.active] + before.imms);
        View(Layers(p)) == View(Layers(before)) && Sealed(p) == Sealed(before) + [before.active]
    {
      var p := before.(active := map[], imms := [before.active] + before.imms);
      FreezeKeepsLookups(before);
      SameLookupsSameLiveKeys(Layers(p), Layers(before));
      assert Reverse(p.imms) == Reverse(before.imms) + [before.active];
    }

    /** One table of a flush: build it, then publish it. */
    method FlushOldest() returns (ok: bool)
      requires Flushing() && (pc == Idle || pc == Published) && memtables.frozen != []
      modifies this, device, memtables`immutables, memtables`frozen
      ensures Flushing() && Accepted(acts) == old(Accepted(acts))
      ensures if ok then pc == Published && |memtables.frozen| < |old(memtables.frozen)| else pc == Idle
      ensures Layers(State()) == old(Layers(State())) && Sealed(State()) == old(Sealed(State()))
      ensures wal == old(wal)
      ensures device.failures >= old(device.failures) + if ok then 0 else 1
    {
      var done, t := BuildTable();
      if !done {
        return false;
      }
      ghost var before := State();
      ok := PublishTable(t);
      if pc == Published {
        AdoptingKeepsLayers(before, manifest);
      }
      if !ok && pc == Published {
        Stop();
      }
    }

    /** Publishes every frozen MemTable, oldest first; stops at the first failure. */
    method FlushFrozen() returns (ok: bool)
      requires Flushing() && pc == Idle && memtables.frozen != []
      modifies this, device, memtables`immutables, memtables`frozen
      ensures Flushing() && Accepted(acts) == old(Accepted(acts))
      ensures if ok then pc == Published && memtables.frozen == [] else pc == Idle
      ensures Layers(State()) == old(Layers(State())) && Sealed(State()) == old(Sealed(State()))
      ensures wal == old(wal)
      ensures device.failures >= old(device.failures) + if ok then 0 else 1
    {
      ok := true;
      while |memtables.immutables| > 0
        invariant Flushing() && Accepted(acts) == old(Accepted(acts)) && wal == old(wal) && device.failures >= old(device.failures)
        invariant pc == Published || (pc == Idle && memtables.frozen != [])
        invariant Layers(State()) == old(Layers(State())) && Sealed(State()) == old(Sealed(State()))
        decreases |memtables.immutables|
      {
        ok := FlushOldest();
        if !ok { return; }
      }
    }

    /** Flushes everything pending: freeze, then one table per frozen MemTable, oldest first, then a new
        log. It changes neither what a reader sees nor what has been accepted; when it succeeds nothing
        is pending and the log is empty, and when nothing was pending it does nothing, even if the log
        could not be rotated before. */
    method FlushLocked() returns (s: Status)
      requires Valid()
      modifies this, device, memtables
      ensures Valid() && Contents() == old(Contents()) && Accepted(acts) == old(Accepted(acts))
      ensures s == Ok || s == IOError
      ensures memtables.active.table == map[] && (s == Ok ==> memtables.frozen == [])
      ensures !old(Pending()) ==> s == Ok && State() == old(State()) && device.d == old(device.d)
      ensures old(Pending()) && s == Ok ==>
                && wal > old(wal) && wal in device.d.wals && device.d.wals[wal] == EMPTY_WAL
                && tables == old(Sealed(State())) + if old(memtables.active.table) == map[] then [] else [old(memtables.active.table)]
      ensures device.failures >= old(device.failures) + if s == Ok then 0 else 1
    {
      FreezingKeepsContents(State());
      FreezeActive();
      if |memtables.immutables| == 0 {
        return Ok;
      }
      var ok := FlushFrozen();
      if !ok {
        return IOError;
      }
      s := RotateWal();
    }

    /** Something has not reached a table yet. */
    ghost predicate Pending()
      reads this, memtables, memtables.active
    {
      memtables.active.table != map[] || memtables.frozen != []
    }

    method Flush() returns (s: Status)
      requires Valid()
      modifies this, device, memtables
      ensures Valid() && Contents() == old(Contents()) && Accepted(acts) == old(Accepted(acts))
      ensures s == Ok ==> !Pending()
      ensures device.failures >= old(device.failures) + if s == Ok then 0 else 1
    {
      s := FlushLocked();
    }

    // ----- the live-key count after recovery -----

    /** What is known once the keys of a layer have been noted, but for those `left`. */
    static ghost function Noted(resolved: map<Key, bool>, layer: Layer, left: set<Key>): map<Key, bool> {
      resolved + map k | k in layer && k !in left && k !in resolved :: layer[k].value.Some?
    }

    static lemma NotedOne(resolved: map<Key, bool>, layer: Layer, left: set<Key>, k: Key)
      requires k in left && left <= layer.Keys
      ensures var r := Noted(resolved, layer, left);
        Noted(resolved, layer, left - {k}) == if k in r then r else r[k := layer[k].value.Some?]
    {
    }

    static lemma NotedAll(resolved: map<Key, bool>, layer: Layer, seen: seq<Layer>)
      requires Resolves(resolved, seen)
      ensures Noted(resolved, layer, layer.Keys) == resolved && Resolves(Noted(resolved, layer, {}), seen + [layer])
    {
      var r := Noted(resolved, layer, {});
      forall k ensures (k in r <==> Lookup(seen + [layer], k).Some?) && (k in r ==> r[k] == Live(Lookup(seen + [layer], k))) {
        LookupConcat(seen, [layer], k);
        assert k in resolved <==> Lookup(seen, k).Some?;
      }
    }

    /** Notes the keys of a layer that no newer layer has mentioned. */
    static method Resolve(resolved: map<Key, bool>, layer: Layer, ghost seen: seq<Layer>) returns (r: map<Key, bool>)
      requires Resolves(resolved, seen)
      ensures Resolves(r, seen + [layer])
    {
      NotedAll(resolved, layer, seen);
      r := resolved;
      var left := layer.Keys;
      while left != {}
        invariant left <= layer.Keys && r == Noted(resolved, layer, left)
        decreases left
      {
        var k :| k in left;
        NotedOne(resolved, layer, left, k);
        if k !in r {
          r := r[k := layer[k].value.Some?];
        }
        left := left - {k};
      }
    }

    static ghost predicate Resolves(resolved: map<Key, bool>, seen: seq<Layer>) {
      forall k :: (k in resolved <==> Lookup(seen, k).Some?) && (k in resolved ==> resolved[k] == Live(Lookup(seen, k)))
    }

    /** Scans every layer, newest first; the first sighting of a key decides whether it is live. */
    method ComputeLiveKeyCount() returns (live: nat)
      requires memtables.Valid()
      ensures live == |LiveKeys(Layers(State()))|
    {
      var resolved := Resolve(map[], memtables.active.table, []);
      ghost var seen := [memtables.active.table];
      assert [] + [memtables.active.table] == seen;
      for i := 0 to |memtables.immutables|
        invariant seen == [memtables.active.table] + memtables.frozen[..i] && Resolves(resolved, seen)
      {
        resolved := Resolve(resolved, memtables.immutables[i].table, seen);
        seen := seen + [memtables.immutables[i].table];
      }
      ghost var mem := [memtables.active.table] + memtables.frozen;
      var i := |tables|;
      assert tables[i..] == [];
      while i > 0
        invariant 0 <= i <= |tables| && seen == mem + Reverse(tables[i..]) && Resolves(resolved, seen)
      {
        i := i - 1;
        resolved := Resolve(resolved, tables[i], seen);
        seen := seen + [tables[i]];
        assert tables[i..][1..] == tables[i + 1..];
      }
      assert seen == Layers(State()) by { assert tables[0..] == tables; }
      live := CountTrue(resolved);
      forall k ensures k in LiveKeys(seen) <==> k in resolved && resolved[k] {
        LiveKeysAreLive(seen, k);
      }
      assert LiveKeys(seen) == set k | k in resolved && resolved[k];
    }

    static method CountTrue(m: map<Key, bool>) returns (n: nat)
      ensures n == |set k | k in m && m[k]|
    {
      n := 0;
      var left := m.Keys;
      ghost var counted: set<Key> := {};
      while left != {}
        invariant left <= m.Keys && n == |counted| && counted == set k | k in m && m[k] && k !in left
        decreases left
      {
        var k :| k in left;
        left := left - {k};
        if m[k] {
          n := n + 1;
          counted := counted + {k};
        }
      }
      assert counted == set k | k in m && m[k];
    }

    // ----- recovery -----

    /** A new object, before recovery: nothing is in memory. */
    ghost predicate Blank()
      reads this, device, memtables, memtables.Repr()
    {
      && Tracks() && !up && pc == Idle && pending == None && misread == 0
      && memtables.active.table == map[] && memtables.frozen == [] && tables == [] && manifest == Manifest(1, 0, 0, [])
    }

    /** Opens every table the manifest lists, oldest first. */
    method OpenTables() returns (ok: bool)
      requires TablesReadable(device.d, manifest.tables) && tables == []
      modifies this`tables, device`failures
      ensures ok ==> tables == TableLayers(device.d, manifest.tables)
      ensures device.failures >= old(device.failures) + if ok then 0 else 1
    {
      ok := true;
      for i := 0 to |manifest.tables|
        invariant tables == TableLayers(device.d, manifest.tables)[..i] && device.failures == old(device.failures)
      {
        var t := manifest.tables[i];
        ok := device.OpenReader(t);
        if !ok { return; }
        tables := tables + [device.d.tables[t].layer];
      }
    }

    /** Applies the records of the log, in order, to the empty active MemTable. */
    method ReplayLog(records: seq<Record>) returns (maxSeq: nat)
      requires memtables.Valid() && memtables.active.table == map[]
      modifies memtables.active
      ensures memtables.Valid() && memtables.active.table == Replay(records)
      ensures maxSeq == MaxSeq(records, manifest.lastSeq)
    {
      maxSeq := manifest.lastSeq;
      for i := 0 to |records|
        invariant memtables.Valid() && memtables.active.table == Replay(records[..i])
        invariant maxSeq == MaxSeq(records[..i], manifest.lastSeq)
      {
        var r := records[i];
        assert records[..i + 1][..i] == records[..i];
        maxSeq := if r.seqno > maxSeq then r.seqno else maxSeq;
        if r.value.Some? {
          memtables.Put(r.key, r.value.value, r.seqno);
        } else {
          memtables.Delete(r.key, r.seqno);
        }
      }
      assert records[..|records|] == records;
    }

    /** Creates the first log of a database that has no manifest. */
    method FirstLog() returns (ok: bool)
      requires Blank() && device.d.manifest == None
      modifies this`wal, this`nextFile, this`acts, device
      ensures Blank() && device.d.manifest == None && After(acts).whole && Accepted(acts) == old(Accepted(acts))
      ensures Account(acts) == old(Account(acts))
      ensures ok ==> wal == 1 && nextFile == 2 && 1 in device.d.wals && device.d.wals[1] == EMPTY_WAL
      ensures device.failures >= old(device.failures) + if ok then 0 else 1
    {
      NothingOnDisk(acts);
      nextFile := 1;
      wal := nextFile;
      nextFile := nextFile + 1;
      ghost var d := device.d;
      ok := device.OpenWal(wal);
      if ok || device.d != d { Note(FreshWal); }
    }

    /** The log and manifest of a database that has none: the log is created first, then the manifest
        that names it is put in place. */
    method StartFresh() returns (ok: bool)
      requires Blank() && device.d.manifest == None
      modifies this`manifest, this`wal, this`nextFile, this`acts, device
      ensures IsRun(acts) && After(acts).disk == device.d && After(acts).proc == None
      ensures After(acts).whole && Accepted(acts) == old(Accepted(acts)) && Account(acts) == old(Account(acts))
      ensures ok ==> Loaded() && manifest.lastSeq == 0 && device.d.wals[wal] == EMPTY_WAL
      ensures device.failures >= old(device.failures) + if ok then 0 else 1
    {
      ok := FirstLog();
      if !ok { return; }
      ghost var w := After(acts);
      FirstManifestCanBePublished(w);
      manifest := Manifest(nextFile, wal, 0, []);
      var published;
      ok, published := SaveManifest(manifest, FreshManifest);
    }

    /** Cuts a torn log back to its last whole record. */
    method CutLog(n: nat) returns (ok: bool)
      requires Tracks() && !up && device.d.manifest.Some? && device.d.manifest.value.wal == n && n in device.d.wals
      requires device.d.wals[n].torn && !Jammed(device.d.wals[n])
      modifies this`acts, device
      ensures Tracks() && Accepted(acts) == old(Accepted(acts)) && Recovered(Account(acts)) == old(Recovered(Account(acts)))
      ensures ok ==> device.d == old(device.d).(wals := old(device.d).wals[n := Cut(old(device.d).wals[n])])
      ensures After(acts).whole == old(After(acts)).whole || (Stranded(old(device.d)) && !After(acts).whole)
      ensures device.failures >= old(device.failures) + if ok then 0 else 1
    {
      OnDisk(acts);
      ghost var d := device.d;
      ok := device.TruncateWal(n);
      if device.d != d { Note(CutTail); }
    }

    /** A run goes on, with no process up, to where a recovery shows the same as before; at most stranded records
        are cut away. */
    static ghost predicate Continues(before: seq<Action>, acts: seq<Action>) {
      && IsRun(before) && IsRun(acts) && After(acts).proc == None
      && Accepted(acts) == Accepted(before) && Recovered(Account(acts)) == Recovered(Account(before))
      && (After(acts).whole == After(before).whole || (Stranded(After(before).disk) && !After(acts).whole))
    }

    static predicate JammedAt(d: Disk, n: nat) {
      n in d.wals && Jammed(d.wals[n])
    }

    /** Reads the log into the active MemTable and leaves it ready for appending. */
    method LoadLog() returns (s: Status, maxSeq: nat)
      requires Tracks() && !up && memtables.active.table == map[] && device.d.manifest == Some(manifest)
      requires Tailed(device.d, manifest)
      modifies this`wal, this`acts, device, memtables.active
      ensures memtables.Valid() && Continues(old(acts), acts) && After(acts).disk == device.d
      ensures s == Ok || s == IOError || s == Corruption
      ensures s == Corruption ==> JammedAt(old(device.d), manifest.wal)
      ensures s == Ok ==> !JammedAt(old(device.d), manifest.wal)
      ensures s == Ok ==>
                && device.d == old(device.d).(wals := device.d.wals) && manifest.wal in device.d.wals
                && device.d.wals[manifest.wal].records == old(device.d).wals[manifest.wal].records && !device.d.wals[manifest.wal].torn
                && wal == manifest.wal
                && memtables.active.table == Replay(device.d.wals[wal].records) && maxSeq == MaxSeq(device.d.wals[wal].records, manifest.lastSeq)
      ensures device.failures >= old(device.failures) + if s == IOError then 1 else 0
    {
      var ok, result, records := device.ReadWal(manifest.wal);
      maxSeq := 0;
      if !ok {
        return IOError, maxSeq;
      }
      maxSeq := ReplayLog(records);
      if result == Corrupted {
        return Corruption, maxSeq;
      }
      if result == Truncated {
        ok := CutLog(manifest.wal);
        if !ok {
          return IOError, maxSeq;
        }
      }
      ok := device.OpenWal(manifest.wal);
      if !ok {
        return IOError, maxSeq;
      }
      wal := manifest.wal;
      s := Ok;
    }

    /** Memory holds what the disk says: manifest, tables and log. */
    ghost predicate Loaded()
      reads this, device, memtables, memtables.Repr()
    {
      && memtables.Valid() && IsRun(acts) && After(acts).disk == device.d && After(acts).proc == None
      && !up && pc == Idle && pending == None && misread == 0 && memtables.frozen == []
      && Bootable(device.d) && device.d.manifest == Some(manifest) && wal == manifest.wal && nextFile == manifest.nextFile
      && tables == TableLayers(device.d, manifest.tables)
      && memtables.active.table == Replay(device.d.wals[wal].records)
    }

    /** Notes that the process is up. */
    ghost method NoteBoot(h: seq<Record>)
      requires Loaded() && State() == Booted(device.d) && h == Recovered(Account(acts))
      modifies this`acts, this`up
      ensures Valid() && State() == old(State()) && Accepted(acts) == old(Accepted(acts))
      ensures After(acts).whole == old(After(acts)).whole && Contents() == Fold(h)
    {
      ComingUp(acts);
      acts := acts + [Boot];
      up := true;
    }

    /** The last of recovery: where numbering resumes, and how many keys are live. */
    method BringUp(maxSeq: nat, ghost h: seq<Record>)
      requires Loaded() && h == Recovered(Account(acts)) && maxSeq == MaxSeq(device.d.wals[wal].records, manifest.lastSeq)
      modifies this`nextSeq, this`liveKeys, this`acts, this`up
      ensures Valid() && Accepted(acts) == old(Accepted(acts)) && After(acts).whole == old(After(acts)).whole
      ensures Contents() == Fold(h)
    {
      nextSeq := maxSeq + 1;
      liveKeys := ComputeLiveKeyCount();
      NoteBoot(h);
    }

    method LoadTables(m: Manifest) returns (ok: bool)
      requires Blank() && device.d.manifest == Some(m)
      modifies this`manifest, this`nextFile, this`tables, device`failures
      ensures Tracks() && manifest == m && nextFile == m.nextFile && acts == old(acts)
      ensures Tailed(device.d, m) && (ok ==> tables == TableLayers(device.d, m.tables))
      ensures device.failures >= old(device.failures) + if ok then 0 else 1
    {
      OnDisk(acts);
      manifest := m;
      nextFile := manifest.nextFile;
      ok := OpenTables();
    }

    /** Recovery when there is a manifest: it, its tables, and the log it names. */
    method LoadExisting(m: Manifest) returns (s: Status, maxSeq: nat)
      requires Blank() && device.d.manifest == Some(m)
      modifies this`manifest, this`nextFile, this`tables, this`wal, this`acts, device, memtables.active
      ensures Continues(old(acts), acts) && After(acts).disk == device.d
      ensures s == Ok || s == IOError || s == Corruption
      ensures s == Corruption ==> JammedAt(old(device.d), m.wal)
      ensures s == Ok ==> !JammedAt(old(device.d), m.wal)
      ensures s == Ok ==> Loaded() && maxSeq == MaxSeq(device.d.wals[wal].records, manifest.lastSeq)
      ensures device.failures >= old(device.failures) + if s == IOError then 1 else 0
    {
      maxSeq := 0;
      var ok := LoadTables(m);
      if !ok {
        return IOError, maxSeq;
      }
      s, maxSeq := LoadLog();
    }

    /** Recovery: the manifest, its tables, the log it names; or a fresh start. When it succeeds, what a
        reader sees is the map of the writes in tables and then those in the log, which is that of every
        accepted write as long as none has been stranded and none refused that is in the log. It cannot
        succeed, and reports corruption, only when the log has been filled up behind a torn record. When it
        fails, at most stranded records are lost. */
    method Recover() returns (s: Status)
      requires Blank()
      modifies this, device, memtables.active
      ensures IsRun(acts) && After(acts).disk == device.d && Accepted(acts) == old(Accepted(acts))
      ensures s == Ok ==> Valid()
      ensures s != Ok ==> After(acts).proc == None
      ensures s == Corruption ==> LogJammed(old(After(acts)))
      ensures LogJammed(old(After(acts))) ==> s != Ok
      ensures old(After(acts)).whole && !Stranded(old(device.d)) ==> After(acts).whole
      ensures s == Ok && After(acts).whole ==> Contents() == Fold(Accepted(acts))
      ensures s == Ok ==> Contents() == Fold(old(Recovered(Account(acts))))
      ensures s != Ok ==> Recovered(Account(acts)) == old(Recovered(Account(acts)))
      ensures s == IOError ==> device.failures > old(device.failures)
    {
      var ok, found := device.ReadManifest();
      if !ok {
        return IOError;
      }
      var maxSeq := 0;
      if found.Some? {
        s, maxSeq := LoadExisting(found.value);
      } else {
        ok := StartFresh();
        s := if ok then Ok else IOError;
      }
      if s == Ok {
        BringUp(maxSeq, Recovered(Account(acts)));
        if After(acts).whole { ServesAcceptedWrites(acts); }
      }
    }

    /** Opens a database after any run: whatever the last process did and wherever it stopped. */
    static method Open(device: Device, threshold: nat, ghost acts: seq<Action>) returns (s: Status, db: DB)
      requires IsRun(acts) && After(acts).disk == device.d && After(acts).proc == None
      modifies device
      ensures db.device == device && IsRun(db.acts) && After(db.acts).disk == device.d && Accepted(db.acts) == Accepted(acts)
      ensures s == Ok ==> db.Valid()
      ensures s != Ok ==> After(db.acts).proc == None
      ensures s == Corruption ==> LogJammed(After(acts))
      ensures LogJammed(After(acts)) ==> s != Ok
      ensures s == Ok && After(acts).whole && !Stranded(old(device.d)) ==> db.Contents() == Fold(Accepted(acts))
      ensures s == Ok ==> db.Contents() == Fold(Recovered(Account(acts)))
      ensures s == IOError ==> device.failures > old(device.failures)
    {
      db := new DB(device, threshold, acts);
      s := db.Recover();
    }
  }
}
