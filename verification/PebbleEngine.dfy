/** PebbleDB's storage engine as a machine of atomic actions over what survives a crash (the disk)
    and what does not (the process). Every append, publish, rotation and deletion is one action, a
    crash can come after any of them, and every action that can fail has a failing outcome.
    The classes of module PebbleDatabase perform exactly these actions.
    (projects/06-pebbledb/src/db.cpp) */
module PebbleEngine {
  import opened PebbleHistory

  /** A log file. `torn` says that the bytes of an append that failed half-way follow `records`;
      `stranded` are the records appended after such bytes, and `room` is how many more bytes there can be
      before they fill the torn record, from when on the reader takes it for a corrupt one. */
  datatype WalFile = WalFile(records: seq<Record>, torn: bool, stranded: seq<Record>, room: nat)

  const EMPTY_WAL := WalFile([], false, [], 0)

  /** The reader rejects the log. */
  predicate Jammed(f: WalFile) {
    f.torn && f.room == 0
  }

  /** The size of a record in the log. */
  function Size(r: Record): nat {
    26 + |r.key| + if r.value.Some? then |r.value.value| else 0
  }

  function Remaining(room: nat, n: nat): nat {
    if n < room then room - n else 0
  }

  function Logged(f: WalFile): seq<Record> {
    f.records + f.stranded
  }

  function Append(f: WalFile, r: Record): WalFile {
    if f.torn then f.(stranded := f.stranded + [r], room := Remaining(f.room, Size(r))) else f.(records := f.records + [r])
  }

  /** An append fails half-way. In an intact log, n is the room it leaves; in a torn one, the bytes it adds. */
  function Torn(f: WalFile, n: nat): WalFile {
    f.(torn := true, room := if f.torn then Remaining(f.room, n) else n)
  }

  /** Recovery truncates the log to its records. */
  function Cut(f: WalFile): WalFile {
    WalFile(f.records, false, [], 0)
  }

  /** A table file is referenced only once it is finished. */
  datatype TableFile = Unfinished(empty: bool) | Finished(layer: Layer)

  datatype Manifest = Manifest(nextFile: nat, wal: nat, lastSeq: nat, tables: seq<nat>)

  /** The scratch file a manifest is written to before it is renamed into place. */
  datatype TmpFile = NoTmp | PartialTmp | WholeTmp(m: Manifest)

  datatype Disk = Disk(wals: map<nat, WalFile>, tables: map<nat, TableFile>, manifest: Option<Manifest>, tmp: TmpFile)

  /** Where FlushLocked stands; `Idle` means that no flush is running. */
  datatype Pc = Idle | Building(t: nat) | Published | Rotating(n: nat) | Removing(w: nat)

  /** The process. `pending` is a write that is in the log but not yet in the active MemTable;
      `misread` counts bookkeeping lookups that failed on a live key. Layers: active, then `imms`
      newest first, then `tables` oldest first. */
  datatype Proc = Proc(active: Layer, imms: seq<Layer>, tables: seq<Layer>, manifest: Manifest, wal: nat,
                       nextFile: nat, nextSeq: nat, live: int, misread: nat, pending: Option<Record>, pc: Pc)

  /** `hist` is every write that the log has taken, in order, but for stranded records that a recovery has cut
      away. `whole` stays true as long as there are none of those and every write in the log was accepted;
      `sound` as long as no manifest that a flush saved had counted any that were cut away, and every write
      in the log was accepted. None of the three exists at run time. */
  datatype World = World(disk: Disk, proc: Option<Proc>, hist: seq<Record>, whole: bool, sound: bool)

  const INIT := World(Disk(map[], map[], None, NoTmp), None, [], true, true)

  function Layers(p: Proc): seq<Layer> {
    [p.active] + p.imms + Reverse(p.tables)
  }

  /** What a running process does. */
  datatype Step =
    | LogAppend(r: Record)                 // AddRecord succeeded
    | LogTear(n: nat)                      // AddRecord failed and left bytes behind
    | LogUnsynced(r: Record)               // AddRecord failed after the whole record was written
    | Absorb(missed: bool)                 // the logged write reaches the MemTable
    | Freeze
    | NewTable(made: bool, ready: bool)    // a table file number is taken
    | WriteTable(f: TableFile)             // the table file grows or is finished
    | PublishTable                         // rename: the manifest lists the table
    | NewWal(made: bool, ready: bool)      // a log file number is taken
    | Rotate                               // rename: the manifest names the new log
    | DropWal(gone: bool)                  // the superseded log is deleted, if that works
    | GiveUp                               // FlushLocked returns

  datatype Action =
    | Touch(tmp: TmpFile)                  // write to the scratch manifest
    | FreshWal                             // Recover, no manifest: create the first log
    | FreshManifest                        // Recover, no manifest: rename the first manifest into place
    | CutTail                              // Recover: truncate a torn log
    | Boot                                 // Recover: the process is up
    | Do(s: Step)
    | Crash

  predicate TablesReadable(d: Disk, ts: seq<nat>) {
    forall t :: t in ts ==> t in d.tables && d.tables[t].Finished?
  }

  function TableLayers(d: Disk, ts: seq<nat>): seq<Layer>
    requires TablesReadable(d, ts)
  {
    seq(|ts|, i requires 0 <= i < |ts| => d.tables[ts[i]].layer)
  }

  function MaxSeq(h: seq<Record>, floor: nat): (r: nat)
    ensures r >= floor
  {
    if h == [] then floor
    else
      var m := MaxSeq(h[..|h| - 1], floor);
      if h[|h| - 1].seqno > m then h[|h| - 1].seqno else m
  }

  /** The process that recovery builds from the disk. */
  function Booted(d: Disk): Proc
    requires d.manifest.Some? && d.manifest.value.wal in d.wals && TablesReadable(d, d.manifest.value.tables)
  {
    var m := d.manifest.value;
    var p := Proc(Replay(d.wals[m.wal].records), [], TableLayers(d, m.tables), m, m.wal, m.nextFile,
                  MaxSeq(d.wals[m.wal].records, m.lastSeq) + 1, 0, 0, None, Idle);
    p.(live := |LiveKeys(Layers(p))|)
  }

  function TableManifest(p: Proc, t: nat): Manifest
    requires p.nextSeq >= 1
  {
    p.manifest.(nextFile := p.nextFile, wal := p.wal, lastSeq := p.nextSeq - 1, tables := p.manifest.tables + [t])
  }

  const FIRST_MANIFEST := Manifest(2, 1, 0, [])

  predicate Quiet(p: Proc) {
    p.pc == Idle && p.pending == None
  }

  predicate StepEnabled(d: Disk, p: Proc, s: Step) {
    match s
    case LogAppend(r) => Quiet(p) && p.wal in d.wals && r.seqno == p.nextSeq
    case LogTear(n) => Quiet(p) && p.wal in d.wals && n > 0
    case LogUnsynced(r) => Quiet(p) && p.wal in d.wals && r.seqno == p.nextSeq
    case Absorb(_) => p.pc == Idle && p.pending.Some?
    case Freeze => Quiet(p) && p.active != map[]
    case NewTable(made, ready) =>
      && p.pending == None && (p.pc == Idle || p.pc == Published) && p.active == map[] && p.imms != []
      && (ready ==> made) && (made && p.nextFile in d.tables ==> d.tables[p.nextFile] == Unfinished(true))
    case WriteTable(_) => p.pc.Building?
    case PublishTable =>
      && p.pc.Building? && p.imms != [] && p.nextSeq >= 1 && p.pc.t in d.tables
      && d.tables[p.pc.t] == Finished(p.imms[|p.imms| - 1]) && d.tmp == WholeTmp(TableManifest(p, p.pc.t))
    case NewWal(made, ready) => p.pc == Published && p.imms == [] && (ready ==> made)
    case Rotate => p.pc.Rotating? && d.tmp == WholeTmp(p.manifest.(wal := p.pc.n))
    case DropWal(_) => p.pc.Removing?
    case GiveUp => p.pending == None
  }

  predicate Enabled(w: World, a: Action) {
    var d := w.disk;
    match a
    case Touch(_) => true
    case FreshWal => w.proc == None && d.manifest == None
    case FreshManifest => w.proc == None && d.manifest == None && 1 in d.wals && d.tmp == WholeTmp(FIRST_MANIFEST)
    case CutTail =>
      && w.proc == None && d.manifest.Some? && d.manifest.value.wal in d.wals && d.wals[d.manifest.value.wal].torn
      && d.wals[d.manifest.value.wal].room > 0 && |d.wals[d.manifest.value.wal].stranded| <= |w.hist|
    case Boot =>
      && w.proc == None && d.manifest.Some? && d.manifest.value.wal in d.wals && !d.wals[d.manifest.value.wal].torn
      && TablesReadable(d, d.manifest.value.tables)
    case Do(s) => w.proc.Some? && StepEnabled(d, w.proc.value, s)
    case Crash => true
  }

  /** The disk and the process after a step. */
  function StepEffect(d: Disk, p: Proc, s: Step): (Disk, Proc)
    requires StepEnabled(d, p, s)
  {
    match s
    case LogAppend(r) => (d.(wals := d.wals[p.wal := Append(d.wals[p.wal], r)]), p.(pending := Some(r)))
    case LogTear(n) => (d.(wals := d.wals[p.wal := Torn(d.wals[p.wal], n)]), p)
    case LogUnsynced(r) => (d.(wals := d.wals[p.wal := Append(d.wals[p.wal], r)]), p)
    case Absorb(missed) => (d, Absorbed(p, Live(Lookup(Layers(p), p.pending.value.key)), missed))
    case Freeze => (d, p.(active := map[], imms := [p.active] + p.imms))
    case NewTable(made, ready) =>
      (if made then d.(tables := d.tables[p.nextFile := Unfinished(true)]) else d,
       p.(nextFile := p.nextFile + 1, pc := if ready then Building(p.nextFile) else Idle))
    case WriteTable(f) => (d.(tables := d.tables[p.pc.t := f]), p)
    case PublishTable =>
      var m := TableManifest(p, p.pc.t);
      (d.(manifest := Some(m), tmp := NoTmp),
       p.(manifest := m, tables := p.tables + [p.imms[|p.imms| - 1]], imms := p.imms[..|p.imms| - 1], pc := Published))
    case NewWal(made, ready) =>
      (if made then OpenedWal(d, p.nextFile) else d,
       p.(nextFile := p.nextFile + 1, pc := if ready then Rotating(p.nextFile) else Idle))
    case Rotate =>
      var m := p.manifest.(wal := p.pc.n);
      (d.(manifest := Some(m), tmp := NoTmp), p.(manifest := m, wal := p.pc.n, pc := Removing(p.wal)))
    case DropWal(gone) => (if gone then d.(wals := d.wals - {p.pc.w}) else d, p.(pc := Idle))
    case GiveUp => (d, p.(pc := Idle))
  }

  /** Opening a log for append creates it when it is absent and leaves it alone otherwise. */
  function OpenedWal(d: Disk, n: nat): Disk {
    if n in d.wals then d else d.(wals := d.wals[n := EMPTY_WAL])
  }

  function Effect(w: World, a: Action): World
    requires Enabled(w, a)
  {
    var d := w.disk;
    match a
    case Touch(tmp) => w.(disk := d.(tmp := tmp))
    case FreshWal => w.(disk := OpenedWal(d, 1))
    case FreshManifest => w.(disk := d.(manifest := Some(FIRST_MANIFEST), tmp := NoTmp))
    case CutTail =>
      var n := d.manifest.value.wal;
      w.(disk := d.(wals := d.wals[n := Cut(d.wals[n])]),
         hist := w.hist[..|w.hist| - |d.wals[n].stranded|],
         whole := w.whole && d.wals[n].stranded == [],
         sound := w.sound && d.manifest.value.lastSeq + |d.wals[n].stranded| <= |w.hist|)
    case Boot => w.(proc := Some(Booted(d)))
    case Do(s) =>
      var (d', p') := StepEffect(d, w.proc.value, s);
      World(d', Some(p'), if s.LogAppend? || s.LogUnsynced? then w.hist + [s.r] else w.hist, w.whole && !s.LogUnsynced?, w.sound && !s.LogUnsynced?)
    case Crash => w.(proc := None)
  }

  /** The logged write enters the active MemTable and the live-key counter follows: `live` says that
      the key was live before, `missed` that the lookup which should have told failed to read a table. */
  function Absorbed(p: Proc, live: bool, missed: bool): Proc
    requires p.pending.Some?
  {
    var r := p.pending.value;
    var seen := live && !missed;
    p.(active := Insert(p.active, r), nextSeq := p.nextSeq + 1, pending := None,
       live := p.live + (if r.value.Some? then (if seen then 0 else 1) else (if seen then -1 else 0)),
       misread := p.misread + (if live && missed then 1 else 0))
  }

  /** A run is a list of actions, each enabled where it is taken. */
  predicate IsRun(acts: seq<Action>)
    decreases |acts|, 0
  {
    acts == [] || (IsRun(acts[..|acts| - 1]) && Enabled(After(acts[..|acts| - 1]), acts[|acts| - 1]))
  }

  function After(acts: seq<Action>): World
    requires IsRun(acts)
    decreases |acts|, 1
  {
    if acts == [] then INIT else Effect(After(acts[..|acts| - 1]), acts[|acts| - 1])
  }

  /** The writes the log accepted in a run, read off the run alone. */
  function Accepted(acts: seq<Action>): seq<Record> {
    if acts == [] then []
    else Accepted(acts[..|acts| - 1]) + (match acts[|acts| - 1] case Do(LogAppend(r)) => [r] case _ => [])
  }
}
