/** Runs with a torn log. A write behind the torn bytes is lost in a crash, or keeps the database from ever being
    opened again. When a flush puts such writes in a table before the crash, recovery shows a map that no prefix
    of the accepted writes stands for, or one that a write is missing from, or all of them. (projects/06-pebbledb/src/db.cpp, projects/06-pebbledb/src/wal/writer.cpp) */
module PebbleTornFlush {
  import opened PebbleHistory
  import opened PebbleEngine
  import opened PebbleGuarantees
  import opened PebbleLedger

  ghost predicate Reaches(acts: seq<Action>, w: World, accepted: seq<Record>) {
    IsRun(acts) && After(acts) == w && Accepted(acts) == accepted
  }

  lemma Act(acts: seq<Action>, w: World, accepted: seq<Record>, a: Action) returns (more: seq<Action>)
    requires Reaches(acts, w, accepted) && Enabled(w, a)
    ensures Reaches(more, Effect(w, a), match a case Do(LogAppend(r)) => accepted + [r] case _ => accepted)
    ensures Account(more) == Entered(Account(acts), a)
  {
    Extend(acts, a);
    more := acts + [a];
    assert more[..|acts|] == acts;
  }

  /** A process that waits for a write, with its files in order and nothing frozen. */
  ghost predicate Waiting(w: World) {
    w.proc.Some? && Quiet(w.proc.value) && w.proc.value.imms == [] && w.proc.value.wal in w.disk.wals && w.disk.manifest.Some?
    && w.disk.manifest.value.wal == w.proc.value.wal
  }

  /** A write that the log takes and that reaches the MemTable. */
  lemma Put(acts: seq<Action>, w: World, accepted: seq<Record>, r: Record) returns (more: seq<Action>, u: World)
    requires Reaches(acts, w, accepted) && Waiting(w) && r.seqno == w.proc.value.nextSeq
    ensures Reaches(more, u, accepted + [r]) && Waiting(u) && Account(more) == Entered(Account(acts), Do(LogAppend(r)))
    ensures var p, q := w.proc.value, u.proc.value;
            && u.disk == w.disk.(wals := w.disk.wals[p.wal := Append(w.disk.wals[p.wal], r)])
            && q == p.(active := Insert(p.active, r), nextSeq := p.nextSeq + 1, live := q.live, misread := q.misread)
  {
    more := Act(acts, w, accepted, Do(LogAppend(r)));
    var v := Effect(w, Do(LogAppend(r)));
    more := Act(more, v, accepted + [r], Do(Absorb(false)));
    u := Effect(v, Do(Absorb(false)));
  }

  /** The MemTable is frozen and written to a table file that is not listed yet. */
  lemma BuildTable(acts: seq<Action>, w: World, accepted: seq<Record>) returns (more: seq<Action>, u: World)
    requires Reaches(acts, w, accepted) && Waiting(w) && w.proc.value.active != map[] && w.proc.value.nextFile !in w.disk.tables
    ensures Reaches(more, u, accepted) && Account(more) == Entered(Account(acts), Do(Freeze)) && u.proc.Some?
    ensures var p, q := w.proc.value, u.proc.value;
            && q == p.(active := map[], imms := [p.active], nextFile := p.nextFile + 1, pc := Building(p.nextFile))
            && u.disk == w.disk.(tables := w.disk.tables[p.nextFile := Finished(p.active)])
  {
    var a;
    more, a := TakeTable(acts, w, accepted);
    more := Act(more, a, accepted, Do(WriteTable(Finished(w.proc.value.active))));
    u := Effect(a, Do(WriteTable(Finished(w.proc.value.active))));
  }

  lemma TakeTable(acts: seq<Action>, w: World, accepted: seq<Record>) returns (more: seq<Action>, u: World)
    requires Reaches(acts, w, accepted) && Waiting(w) && w.proc.value.active != map[] && w.proc.value.nextFile !in w.disk.tables
    ensures Reaches(more, u, accepted) && Account(more) == Entered(Account(acts), Do(Freeze)) && u.proc.Some?
    ensures var p, q := w.proc.value, u.proc.value;
            && q == p.(active := map[], imms := [p.active], nextFile := p.nextFile + 1, pc := Building(p.nextFile))
            && u.disk == w.disk.(tables := w.disk.tables[p.nextFile := Unfinished(true)])
  {
    more := Act(acts, w, accepted, Do(Freeze));
    var a := Effect(w, Do(Freeze));
    more := Act(more, a, accepted, Do(NewTable(true, true)));
    u := Effect(a, Do(NewTable(true, true)));
  }

  /** The MemTable becomes a published table; the log is not rotated yet. */
  lemma FlushUpToRotation(acts: seq<Action>, w: World, accepted: seq<Record>) returns (more: seq<Action>, u: World)
    requires Reaches(acts, w, accepted) && Waiting(w) && w.proc.value.active != map[] && w.proc.value.nextSeq >= 1
    requires w.proc.value.nextFile !in w.disk.tables
    ensures Reaches(more, u, accepted) && Account(more) == Entered(Entered(Account(acts), Do(Freeze)), Do(PublishTable))
    ensures var p := w.proc.value;
            && u.disk.wals == w.disk.wals && u.disk.manifest.Some?
            && u.disk.manifest.value.wal == p.wal && u.disk.manifest.value.tables == p.manifest.tables + [p.nextFile]
            && u.disk.tables == w.disk.tables[p.nextFile := Finished(p.active)]
  {
    var c;
    more, c := BuildTable(acts, w, accepted);
    var m := TableManifest(c.proc.value, w.proc.value.nextFile);
    more := Act(more, c, accepted, Touch(WholeTmp(m)));
    var d := Effect(c, Touch(WholeTmp(m)));
    more := Act(more, d, accepted, Do(PublishTable));
    u := Effect(d, Do(PublishTable));
  }

  /** The stack of layers that recovery builds. */
  lemma BootedLayers(d: Disk)
    requires Bootable(d)
    ensures Layers(Booted(d)) == [Replay(d.wals[d.manifest.value.wal].records)] + Reverse(TableLayers(d, d.manifest.value.tables))
  {
    var p := Booted(d);
    assert p.imms == [] && p.active == Replay(d.wals[d.manifest.value.wal].records);
    assert [p.active] + [] == [p.active];
  }

  lemma BootUp(acts: seq<Action>, w: World, accepted: seq<Record>) returns (more: seq<Action>, u: World)
    requires Reaches(acts, w, accepted) && w.proc == None && Bootable(w.disk)
    ensures Reaches(more, u, accepted) && u == w.(proc := Some(Booted(w.disk))) && Account(more) == Settled(Account(acts))
  {
    more := Act(acts, w, accepted, Boot);
    u := Effect(w, Boot);
  }

  /** The disk after a torn log has been cut. */
  function CutDisk(d: Disk): Disk
    requires d.manifest.Some? && d.manifest.value.wal in d.wals
  {
    d.(wals := d.wals[d.manifest.value.wal := Cut(d.wals[d.manifest.value.wal])])
  }

  lemma CrashAndCut(acts: seq<Action>, w: World, accepted: seq<Record>) returns (more: seq<Action>, u: World)
    requires Reaches(acts, w, accepted) && w.disk.manifest.Some? && w.disk.manifest.value.wal in w.disk.wals
    requires w.disk.wals[w.disk.manifest.value.wal].torn && !LogJammed(w)
    ensures Reaches(more, u, accepted) && u.proc == None && u.disk == CutDisk(w.disk)
  {
    OnDisk(acts);
    more := Act(acts, w, accepted, Crash);
    var a := Effect(w, Crash);
    more := Act(more, a, accepted, CutTail);
    u := Effect(a, CutTail);
  }

  /** A crash, and the recovery that cuts the torn log. */
  lemma Recover(acts: seq<Action>, w: World, accepted: seq<Record>) returns (more: seq<Action>, u: World)
    requires Reaches(acts, w, accepted) && w.disk.manifest.Some? && w.disk.manifest.value.wal in w.disk.wals
    requires w.disk.wals[w.disk.manifest.value.wal].torn && !LogJammed(w) && TablesReadable(w.disk, w.disk.manifest.value.tables)
    ensures Reaches(more, u, accepted) && u.proc.Some?
    ensures Layers(u.proc.value)
         == [Replay(w.disk.wals[w.disk.manifest.value.wal].records)] + Reverse(TableLayers(w.disk, w.disk.manifest.value.tables))
  {
    var v;
    more, v := CrashAndCut(acts, w, accepted);
    assert TableLayers(v.disk, w.disk.manifest.value.tables) == TableLayers(w.disk, w.disk.manifest.value.tables);
    BootedLayers(v.disk);
    more, u := BootUp(more, v, accepted);
  }

  lemma NewDisk() returns (acts: seq<Action>, w: World)
    ensures Reaches(acts, w, []) && Account(acts) == BLANK
    ensures w == World(Disk(map[1 := EMPTY_WAL], map[], Some(FIRST_MANIFEST), NoTmp), None, [], true, true)
  {
    acts := Act([], INIT, [], FreshWal);
    var a := World(Disk(map[1 := EMPTY_WAL], map[], None, NoTmp), None, [], true, true);
    acts := Act(acts, a, [], Touch(WholeTmp(FIRST_MANIFEST)));
    var b := a.(disk := a.disk.(tmp := WholeTmp(FIRST_MANIFEST)));
    acts := Act(acts, b, [], FreshManifest);
    w := Effect(b, FreshManifest);
  }

  lemma Start() returns (acts: seq<Action>, w: World)
    ensures Reaches(acts, w, []) && Waiting(w) && Account(acts) == BLANK
    ensures w.disk.wals == map[1 := EMPTY_WAL] && w.disk.tables == map[] && w.hist == []
    ensures var p := w.proc.value; p.active == map[] && p.manifest == FIRST_MANIFEST && p.wal == 1 && p.nextFile == 2 && p.nextSeq == 1
  {
    acts, w := NewDisk();
    acts, w := BootUp(acts, w, []);
  }

  /** One failed append, one write that the log accepts after it, and a crash are enough to lose it. */
  lemma WriteBehindTornAppendIsLost(key: Key, value: Bytes) returns (acts: seq<Action>)
    ensures IsRun(acts) && Accepted(acts) == [Record(1, key, Some(value))]
    ensures After(acts).disk.manifest.Some? && After(acts).disk.manifest.value.wal in After(acts).disk.wals
    ensures var all := acts + CrashAndReopen(After(acts)); IsRun(all) && Accepted(all) == Accepted(acts) && After(all).hist == []
  {
    var r, w := Record(1, key, Some(value)), INIT;
    acts, w := Start();
    acts := Act(acts, w, [], Do(LogTear(Size(r) + 1)));
    w := Effect(w, Do(LogTear(Size(r) + 1)));
    acts := Act(acts, w, [], Do(LogAppend(r)));
    w := Effect(w, Do(LogAppend(r)));
    assert [] + [r] == [r] && w.hist == [r] && Tail(w).stranded == [r] && Tail(w).room == 1;
    ReopenIsPossible(acts);
  }

  /** When the torn bytes lack no more than that write adds, the database never opens again, and with it all
      earlier writes are gone. */
  lemma WriteBehindTornAppendShutsTheDatabase(r: Record, q: Record) returns (acts: seq<Action>)
    requires r.seqno == 1 && q.seqno == 2
    ensures IsRun(acts) && Accepted(acts) == [r, q] && IsRun(acts + [Crash]) && !CanBeOpened(acts + [Crash])
  {
    var w;
    acts, w := OneThenTorn(r, Size(q));
    acts, w := Put(acts, w, [r], q);
    assert [r] + [q] == [r, q];
    OpensIffNotJammed(acts);
  }

  /** The three writes: k, then, behind torn bytes, k again and j. */
  function Writes(k: Key, j: Key, v: Bytes, v': Bytes, x: Bytes): seq<Record> {
    [Record(1, k, Some(v)), Record(2, k, Some(v')), Record(3, j, Some(x))]
  }

  /** The first is in the log, and torn bytes behind it. */
  lemma OneThenTorn(r: Record, room: nat) returns (acts: seq<Action>, w: World)
    requires r.seqno == 1 && room > 0
    ensures Reaches(acts, w, [r]) && Waiting(w) && Account(acts) == BLANK.(mem := [r], log := [r], torn := true)
    ensures w.disk.wals == map[1 := WalFile([r], true, [], room)] && w.disk.tables == map[]
    ensures var p := w.proc.value; p.active == map[r.key := Entry(1, r.value)] && p.wal == 1 && p.nextFile == 2 && p.nextSeq == 2 && p.manifest == FIRST_MANIFEST
  {
    acts, w := Start();
    acts, w := Put(acts, w, [], r);
    assert [] + [r] == [r];
    acts := Act(acts, w, [r], Do(LogTear(room)));
    w := Effect(w, Do(LogTear(room)));
  }

  /** The second is behind the torn bytes. */
  lemma TwoWrites(r: Record, q: Record, room: nat) returns (acts: seq<Action>, w: World)
    requires r.seqno == 1 && q.seqno == 2 && room > 0
    ensures Reaches(acts, w, [r, q]) && Waiting(w) && Account(acts) == BLANK.(mem := [r, q], log := [r], stranded := [q], torn := true)
    ensures w.disk.wals == map[1 := WalFile([r], true, [q], room)] && w.disk.tables == map[]
    ensures var p := w.proc.value; p.active == map[r.key := Entry(1, r.value)][q.key := Entry(2, q.value)] && p.wal == 1 && p.nextFile == 2 && p.nextSeq == 3 && p.manifest == FIRST_MANIFEST
  {
    acts, w := OneThenTorn(r, Size(q) + room);
    acts, w := Put(acts, w, [r], q);
    assert [r] + [q] == [r, q] && [] + [q] == [q];
  }

  /** All three are accepted. */
  lemma ThreeWrites(k: Key, j: Key, v: Bytes, v': Bytes, x: Bytes) returns (acts: seq<Action>, w: World)
    requires k != j
    ensures var h := Writes(k, j, v, v', x);
            && Reaches(acts, w, h) && Waiting(w) && Account(acts) == BLANK.(mem := h, log := h[..1], stranded := h[1..], torn := true)
            && w.disk.wals == map[1 := WalFile(h[..1], true, h[1..], 1)] && w.disk.tables == map[]
            && w.proc.value.active == map[k := Entry(2, Some(v')), j := Entry(3, Some(x))]
            && w.proc.value.wal == 1 && w.proc.value.nextFile == 2 && w.proc.value.nextSeq == 4 && w.proc.value.manifest == FIRST_MANIFEST
  {
    var h := Writes(k, j, v, v', x);
    acts, w := TwoWrites(h[0], h[1], Size(h[2]) + 1);
    acts, w := Put(acts, w, [h[0], h[1]], h[2]);
    assert [h[0], h[1]] + [h[2]] == h && [h[1]] + [h[2]] == h[1..] && [h[0]] == h[..1];
  }

  /** What a replayed first write on top of a table of the later ones shows. */
  lemma MixedView(k: Key, j: Key, v: Bytes, v': Bytes, x: Bytes)
    requires k != j
    ensures View([map[k := Entry(1, Some(v))]] + [map[k := Entry(2, Some(v')), j := Entry(3, Some(x))]]) == map[k := v, j := x]
  {
    var a, b: Layer := map[k := Entry(1, Some(v))], map[k := Entry(2, Some(v')), j := Entry(3, Some(x))];
    var ls := [a] + [b];
    assert ls[1..] == [b] && [b][1..] == [];
    forall y ensures Lookup(ls, y) == if y in a then Some(a[y]) else if y in b then Some(b[y]) else None {
      assert Lookup(ls[1..], y) == if y in b then Some(b[y]) else None;
    }
    forall y ensures y in LiveKeys(ls) <==> y == k || y == j { LiveKeysAreLive(ls, y); }
  }

  lemma NoPrefix(k: Key, j: Key, v: Bytes, v': Bytes, x: Bytes, n: nat)
    requires k != j && v != v' && n <= 3
    ensures Fold(Writes(k, j, v, v', x)[..n]) != map[k := v, j := x]
  {
    var h := Writes(k, j, v, v', x);
    assert h[..3][..2] == h[..2] && h[..2][..1] == h[..1] && h[..1][..0] == h[..0] == [];
    assert Fold(h[..1]) == map[k := v] && Fold(h[..2]) == map[k := v'] && Fold(h[..3]) == map[k := v', j := x];
    var m := map[k := v, j := x];
    assert j in m && m[k] == v;
  }

  /** The run, and the layers that recovery leaves. */
  lemma TornFlush(k: Key, j: Key, v: Bytes, v': Bytes, x: Bytes) returns (acts: seq<Action>, w: World)
    requires k != j
    ensures Reaches(acts, w, Writes(k, j, v, v', x)) && w.proc.Some?
    ensures Layers(w.proc.value) == [map[k := Entry(1, Some(v))]] + [map[k := Entry(2, Some(v')), j := Entry(3, Some(x))]]
  {
    var h := Writes(k, j, v, v', x);
    acts, w := ThreeWrites(k, j, v, v', x);
    var table := w.proc.value.active;
    assert k in table;
    acts, w := FlushUpToRotation(acts, w, h);
    assert TableLayers(w.disk, w.disk.manifest.value.tables) == [table];
    assert Reverse([table]) == [table];
    acts, w := Recover(acts, w, h);
    assert h[..1][..0] == [] && Replay(h[..1]) == map[k := Entry(1, Some(v))];
  }

  /** Recovery shows the first write, which a later one had replaced, together with the last; the layer
      that answers for k holds an older write than a layer below it. */
  lemma TornFlushMixesUp(k: Key, j: Key, v: Bytes, v': Bytes, x: Bytes) returns (acts: seq<Action>)
    requires k != j && v != v'
    ensures IsRun(acts) && Accepted(acts) == Writes(k, j, v, v', x) && After(acts).proc.Some?
    ensures var ls := Layers(After(acts).proc.value);
            && View(ls) == map[k := v, j := x]
            && (forall n {:trigger Accepted(acts)[..n]} :: 0 <= n <= 3 ==> View(ls) != Fold(Accepted(acts)[..n]))
            && |ls| == 2 && k in ls[1] && Lookup(ls, k).Some? && Lookup(ls, k).value.seqno < ls[1][k].seqno
  {
    var w;
    acts, w := TornFlush(k, j, v, v', x);
    MixedView(k, j, v, v', x);
    forall n | 0 <= n <= 3 ensures Fold(Writes(k, j, v, v', x)[..n]) != map[k := v, j := x] { NoPrefix(k, j, v, v', x, n); }
  }

  /** Two writes, the second behind torn bytes, both in a published table at the time of a crash. */
  lemma TwoInTable(r: Record, q: Record) returns (acts: seq<Action>)
    requires r.seqno == 1 && q.seqno == 2
    ensures IsRun(acts) && Accepted(acts) == [r, q] && After(acts).disk.manifest.Some? && !LogJammed(After(acts))
    ensures Account(acts) == BLANK.(mem := [r, q], listed := 2, log := [r], stranded := [q], torn := true)
  {
    var w;
    acts, w := TwoWrites(r, q, 1);
    assert q.key in w.proc.value.active;
    acts, w := FlushUpToRotation(acts, w, [r, q]);
    assert Account(acts).frozen == [];
  }

  /** What a recovery then shows. */
  lemma TwoInTableShows(r: Record, q: Record) returns (acts: seq<Action>)
    requires r.seqno == 1 && q.seqno == 2
    ensures Shows(acts, [r, q, r]) && Accepted(acts) == [r, q]
  {
    var run := TwoInTable(r, q);
    assert [] + [r, q][..2] + [r] == [r, q, r];
    ReopeningShows(run);
    ReopenIsPossible(run);
    acts := run + CrashAndReopen(After(run));
  }

  /** If they are of two keys, nothing is lost. */
  lemma TornFlushMayLoseNothing(k: Key, j: Key, v: Bytes, x: Bytes) returns (acts: seq<Action>)
    requires k != j
    ensures Accepted(acts) == [Record(1, k, Some(v)), Record(2, j, Some(x))] && Shows(acts, Accepted(acts))
  {
    var r, q := Record(1, k, Some(v)), Record(2, j, Some(x));
    acts := TwoInTableShows(r, q);
    Steps(r, q);
    assert Fold([r, q, r]) == Fold([r, q]);
  }

  /** If they are of one key, recovery shows the first alone, although a table has the second. */
  lemma TornFlushMayLoseAListedWrite(k: Key, v: Bytes, v': Bytes) returns (acts: seq<Action>)
    ensures Accepted(acts) == [Record(1, k, Some(v)), Record(2, k, Some(v'))] && Shows(acts, Accepted(acts)[..1])
  {
    var r, q := Record(1, k, Some(v)), Record(2, k, Some(v'));
    acts := TwoInTableShows(r, q);
    Steps(r, q);
    assert [r, q][..1] == [r] && Fold([r, q, r]) == Fold([r]);
  }

  lemma Steps(r: Record, q: Record)
    ensures Fold([r]) == Write(map[], r) && Fold([r, q]) == Write(Fold([r]), q) && Fold([r, q, r]) == Write(Fold([r, q]), r)
  {
    assert [r][..0] == [] && [r, q][..1] == [r] && [r, q, r][..2] == [r, q];
  }
}
