/** What every run of PebbleDB's engine keeps, and what follows from it: recovery restores exactly
    the writes the log accepted, flushes never change what a reader sees, the layer that answers is
    the newest, and the live-key counter is exact. (projects/06-pebbledb/src/db.cpp) */
module PebbleEngineProofs {
  import opened PebbleHistory
  import opened PebbleEngine

  // ----- the invariant -----

  /** File numbers and references; holds in every run. */
  ghost predicate DiskNumbers(d: Disk, hist: seq<Record>, whole: bool) {
    && (forall n :: n in d.wals && d.wals[n].stranded != [] ==> d.wals[n].torn)
    && match d.manifest
       case None => hist == [] && whole && forall n :: n in d.wals ==> d.wals[n] == EMPTY_WAL
       case Some(m) =>
         && m.wal in d.wals && 1 <= m.wal <= m.nextFile
         && |Logged(d.wals[m.wal])| <= |hist|
         && TablesReadable(d, m.tables)
         && (forall t :: t in m.tables ==> t < m.nextFile)
         && (forall n :: n in d.wals && n > m.wal ==> d.wals[n] == EMPTY_WAL)
  }

  ghost predicate ProcNumbers(d: Disk, p: Proc) {
    && d.manifest == Some(p.manifest)
    && p.wal == p.manifest.wal
    && TablesReadable(d, p.manifest.tables) && p.tables == TableLayers(d, p.manifest.tables)
    && p.manifest.nextFile <= p.nextFile
    && p.nextSeq >= 1
    && (p.pc != Idle ==> p.pending == None)
    && (p.pc == Idle || p.active == map[])
    && match p.pc
       case Idle => true
       case Building(t) => p.manifest.nextFile <= t < p.nextFile && p.imms != []
       case Published => p.manifest.wal < p.manifest.nextFile == p.nextFile
       case Rotating(n) => p.imms == [] && n in d.wals && p.manifest.wal < n == p.manifest.nextFile < p.nextFile
       case Removing(w) => w < p.manifest.wal
  }

  /** The live-key counter, up to the failed lookups behind it. */
  ghost predicate Counted(p: Proc) {
    p.live == |LiveKeys(Layers(p))| + p.misread
  }

  function Applied(p: Proc, hist: seq<Record>): seq<Record> {
    if p.pending.Some? && hist != [] then hist[..|hist| - 1] else hist
  }

  /** The log is the end of the history, and the tables decide every key the log does not mention. */
  ghost predicate DiskData(d: Disk, hist: seq<Record>) {
    && Numbered(hist)
    && (d.manifest.Some? ==>
          var m := d.manifest.value;
          && m.wal in d.wals && TablesReadable(d, m.tables)
          && var log := Logged(d.wals[m.wal]);
          && |log| <= |hist| && log == hist[|hist| - |log|..]
          && |hist| - |log| <= m.lastSeq <= |hist|
          && TablesDecide(TableLayers(d, m.tables), |hist| - |log|, m.lastSeq, hist))
  }

  /** What the tables answer for a key is the latest of the first `base` writes, or a later one. */
  ghost predicate Decided(tables: seq<Layer>, base: nat, hist: seq<Record>, k: Key) {
    && base <= |hist|
    && var e := Lookup(Reverse(tables), k); e == Latest(hist[..base], k) || (e.Some? && e.value.seqno > base)
  }

  ghost predicate UpTo(l: Layer, last: nat, hist: seq<Record>) {
    FromHistory(l, hist) && forall k :: k in l ==> l[k].seqno <= last
  }

  /** The tables decide the writes that the log no longer has, and hold none above `last`. */
  ghost predicate TablesDecide(tables: seq<Layer>, base: nat, last: nat, hist: seq<Record>) {
    && (forall k {:trigger Decided(tables, base, hist, k)} :: Decided(tables, base, hist, k))
    && (forall i :: 0 <= i < |tables| ==> UpTo(tables[i], last, hist))
  }

  ghost predicate ProcData(d: Disk, p: Proc, hist: seq<Record>) {
    && (p.pending.Some? ==> hist != [] && hist[|hist| - 1] == p.pending.value && p.wal in d.wals && Logged(d.wals[p.wal]) != [])
    && p.nextSeq == |Applied(p, hist)| + 1
    && Agrees(Layers(p), Applied(p, hist))
    && p.wal in d.wals
    && MemWithin(p.active, d.wals[p.wal], hist)
    && AllWithin(p.imms, d.wals[p.wal], hist)
    && (p.pc.Published? || p.pc.Rotating? ==> p.manifest.lastSeq == |hist|)
  }

  /** A MemTable holds only writes of the history that the current log has. */
  ghost predicate MemWithin(l: Layer, f: WalFile, hist: seq<Record>) {
    && FromHistory(l, hist)
    && forall k :: k in l ==> l[k].seqno > |hist| - |Logged(f)|
  }

  ghost predicate AllWithin(ls: seq<Layer>, f: WalFile, hist: seq<Record>) {
    forall i :: 0 <= i < |ls| ==> MemWithin(ls[i], f, hist)
  }

  ghost predicate Inv(w: World) {
    && Numbers(w)
    && (w.proc.Some? ==> Counted(w.proc.value))
    && (w.whole ==> w.sound) && (w.sound ==> Data(w))
  }

  ghost predicate Data(w: World) {
    DiskData(w.disk, w.hist) && (w.proc.Some? ==> ProcData(w.disk, w.proc.value, w.hist))
  }

  // ----- numbers -----

  ghost predicate Numbers(w: World) {
    DiskNumbers(w.disk, w.hist, w.whole) && (w.proc.Some? ==> ProcNumbers(w.disk, w.proc.value))
  }

  lemma NumbersKept(w: World, a: Action)
    requires Numbers(w) && Enabled(w, a)
    ensures Numbers(Effect(w, a))
  {
    match a
    case Do(s) =>
      if s.LogAppend? || s.LogTear? || s.LogUnsynced? { LogNumbers(w, s); }
      else if s.WriteTable? || s.NewTable? || s.PublishTable? { TableNumbers(w, s); }
      else if s.NewWal? || s.Rotate? || s.DropWal? { WalNumbers(w, s); }
      else { MemoryNumbers(w, s); }
    case _ =>
  }

  lemma LogNumbers(w: World, s: Step)
    requires Numbers(w) && Enabled(w, Do(s)) && (s.LogAppend? || s.LogTear? || s.LogUnsynced?)
    ensures Numbers(Effect(w, Do(s)))
  {
    var d, d' := w.disk, Effect(w, Do(s)).disk;
    var m := d.manifest.value;
    assert |Logged(d'.wals[m.wal])| <= |Logged(d.wals[m.wal])| + if s.LogTear? then 0 else 1;
  }

  lemma MemoryNumbers(w: World, s: Step)
    requires Numbers(w) && Enabled(w, Do(s)) && (s.Absorb? || s.Freeze? || s.GiveUp?)
    ensures Numbers(Effect(w, Do(s)))
  {
  }

  lemma TableNumbers(w: World, s: Step)
    requires Numbers(w) && Enabled(w, Do(s)) && (s.WriteTable? || s.NewTable? || s.PublishTable?)
    ensures Numbers(Effect(w, Do(s)))
  {
    var m := w.proc.value.manifest;
    var d' := Effect(w, Do(s)).disk;
    assert forall t :: t in m.tables ==> d'.tables[t] == w.disk.tables[t];
    assert TableLayers(d', m.tables) == TableLayers(w.disk, m.tables);
    if s.PublishTable? { NewTableIsLast(w.disk, w.proc.value); }
  }

  lemma WalNumbers(w: World, s: Step)
    requires Numbers(w) && Enabled(w, Do(s)) && (s.NewWal? || s.Rotate? || s.DropWal?)
    ensures Numbers(Effect(w, Do(s)))
  {
    var d' := Effect(w, Do(s)).disk;
    assert TableLayers(d', d'.manifest.value.tables) == TableLayers(w.disk, w.disk.manifest.value.tables);
  }

  lemma CounterKept(d: Disk, p: Proc, s: Step)
    requires Counted(p) && StepEnabled(d, p, s)
    ensures Counted(StepEffect(d, p, s).1)
  {
    var q := StepEffect(d, p, s).1;
    match s
    case Absorb(missed) => AbsorbCounts(p, Live(Lookup(Layers(p), p.pending.value.key)), missed);
    case Freeze => FreezeKeepsLookups(p); SameLookupsSameLiveKeys(Layers(p), Layers(q));
    case PublishTable => PublishKeepsLayers(d, p);
    case _ => assert Layers(q) == Layers(p);
  }

  lemma ReverseAppend<T>(s: seq<T>, x: T)
    ensures Reverse(s + [x]) == [x] + Reverse(s)
  {
    if s != [] {
      assert (s + [x])[1..] == s[1..] + [x];
      ReverseAppend(s[1..], x);
    }
  }

  lemma FreezeKeepsLookups(p: Proc)
    ensures forall k :: Lookup(Layers(p.(active := map[], imms := [p.active] + p.imms)), k) == Lookup(Layers(p), k)
  {
    var q := p.(active := map[], imms := [p.active] + p.imms);
    assert Layers(q)[1..] == Layers(p);
  }

  /** Publishing the oldest immutable MemTable as the newest table leaves the stack of layers as it was. */
  lemma PublishKeepsLayers(d: Disk, p: Proc)
    requires StepEnabled(d, p, PublishTable)
    ensures Layers(StepEffect(d, p, PublishTable).1) == Layers(p)
  {
    var x := p.imms[|p.imms| - 1];
    ReverseAppend(p.tables, x);
    assert p.imms == p.imms[..|p.imms| - 1] + [x];
  }

  lemma NewTableIsLast(d: Disk, p: Proc)
    requires StepEnabled(d, p, PublishTable) && TablesReadable(d, p.manifest.tables) && p.tables == TableLayers(d, p.manifest.tables)
    ensures var (d', p') := StepEffect(d, p, PublishTable);
      TablesReadable(d', p'.manifest.tables) && p'.tables == TableLayers(d', p'.manifest.tables)
  {
  }

  lemma InsertedLiveKeys(l: Layer, rest: seq<Layer>, r: Record)
    ensures LiveKeys([Insert(l, r)] + rest)
         == if r.value.Some? then LiveKeys([l] + rest) + {r.key} else LiveKeys([l] + rest) - {r.key}
  {
    assert ([l] + rest)[1..] == rest && ([Insert(l, r)] + rest)[1..] == rest;
  }

  lemma CountAfterToggle(keys: set<Key>, k: Key)
    ensures |keys + {k}| == |keys| + if k in keys then 0 else 1
    ensures |keys - {k}| == |keys| - if k in keys then 1 else 0
  {
    if k in keys { assert keys + {k} == keys; } else { assert keys - {k} == keys; }
  }

  /** The counter moves with the set of live keys, and a failed lookup only ever overcounts. */
  lemma AbsorbCounts(p: Proc, live: bool, missed: bool)
    requires p.pending.Some? && Counted(p) && live == Live(Lookup(Layers(p), p.pending.value.key))
    ensures Counted(Absorbed(p, live, missed))
  {
    var q := Absorbed(p, live, missed);
    var rest := p.imms + Reverse(p.tables);
    assert Layers(p) == [p.active] + rest;
    assert Layers(q) == [q.active] + rest;
    InsertedLiveKeys(p.active, rest, p.pending.value);
    LiveKeysAreLive(Layers(p), p.pending.value.key);
    CountAfterToggle(LiveKeys(Layers(p)), p.pending.value.key);
  }

  // ----- data -----

  lemma DataKept(w: World, a: Action)
    requires Numbers(w) && Data(w) && Enabled(w, a) && Effect(w, a).sound
    ensures Data(Effect(w, a))
  {
    match a
    case CutTail => CutTailData(w);
    case Boot => BootData(w);
    case Do(s) => StepDataKept(w, s);
    case _ =>
  }

  lemma StepDataKept(w: World, s: Step)
    requires Numbers(w) && Data(w) && Enabled(w, Do(s)) && !s.LogUnsynced?
    ensures Data(Effect(w, Do(s)))
  {
    match s
    case LogAppend(r) => LogAppendData(w, r);
    case LogTear(n) => LogTearData(w, n);
    case Absorb(missed) => AbsorbData(w, missed);
    case Freeze => FreezeData(w);
    case NewTable(_, _) => TableWriteData(w, s);
    case WriteTable(_) => TableWriteData(w, s);
    case PublishTable => PublishData(w);
    case NewWal(_, _) => NewWalData(w, s);
    case Rotate => RotateData(w);
    case DropWal(_) => DropWalData(w, s);
    case GiveUp => GiveUpData(w);
  }

  lemma GiveUpData(w: World)
    requires Numbers(w) && Data(w) && Enabled(w, Do(GiveUp))
    ensures Data(Effect(w, Do(GiveUp)))
  {
    assert Layers(Effect(w, Do(GiveUp)).proc.value) == Layers(w.proc.value);
  }

  lemma CutTailData(w: World)
    requires Numbers(w) && Data(w) && Enabled(w, CutTail) && Effect(w, CutTail).sound
    ensures Data(Effect(w, CutTail))
  {
    var d, d' := w.disk, Effect(w, CutTail).disk;
    var m := d.manifest.value;
    var f := d.wals[m.wal];
    var h, n := w.hist, |w.hist| - |f.stranded|;
    assert Logged(d'.wals[m.wal]) == f.records;
    assert h[..n][n - |f.records|..] == h[|h| - |Logged(f)|..][..|f.records|];
    assert TableLayers(d', m.tables) == TableLayers(d, m.tables);
    EarlierTablesDecide(TableLayers(d, m.tables), |h| - |Logged(f)|, m.lastSeq, h, n);
  }

  /** Tables that hold nothing above `last` know nothing of later writes. */
  lemma EarlierTablesDecide(tables: seq<Layer>, base: nat, last: nat, h: seq<Record>, n: nat)
    requires TablesDecide(tables, base, last, h) && base <= n <= |h| && last <= n
    ensures TablesDecide(tables, base, last, h[..n])
  {
    forall k ensures Decided(tables, base, h[..n], k) {
      assert Decided(tables, base, h, k) && h[..n][..base] == h[..base];
    }
    forall i | 0 <= i < |tables| ensures UpTo(tables[i], last, h[..n]) {
      assert UpTo(tables[i], last, h);
    }
  }

  /** For a key the log does not mention, the tables have the latest write. */
  lemma TablesHaveTheRest(tables: seq<Layer>, base: nat, last: nat, h: seq<Record>, k: Key)
    requires TablesDecide(tables, base, last, h) && Numbered(h) && base <= |h| && k !in Replay(h[base..])
    ensures Lookup(Reverse(tables), k) == Latest(h, k)
  {
    assert Decided(tables, base, h, k);
    LatestBySuffix(h, base, k);
    var e := Lookup(Reverse(tables), k);
    if e.Some? && e.value.seqno > base {
      forall i | 0 <= i < |tables| ensures FromHistory(tables[i], h) { assert UpTo(tables[i], last, h); }
      ReversedFrom(tables, h);
      LookupFromHistory(Reverse(tables), h, k);
      ReplayIsNewest(h, base, e.value.seqno - 1);
    }
  }

  /** The sequence counter resumes right after the last accepted write. */
  lemma {:induction false} ResumedSequence(h: seq<Record>, from: nat, floor: nat)
    requires Numbered(h) && from <= floor <= |h|
    ensures MaxSeq(h[from..], floor) == |h|
  {
    var t := h[from..];
    if t != [] {
      assert t[..|t| - 1] == h[..|h| - 1][from..];
      assert t[|t| - 1].seqno == |h|;
      if floor < |h| {
        ResumedSequence(h[..|h| - 1], from, floor);
      } else {
        BoundedSequence(h[..|h| - 1], from, floor);
      }
    }
  }

  lemma {:induction false} BoundedSequence(h: seq<Record>, from: nat, floor: nat)
    requires Numbered(h) && from <= |h| <= floor
    ensures MaxSeq(h[from..], floor) == floor
  {
    var t := h[from..];
    if t != [] {
      assert t[..|t| - 1] == h[..|h| - 1][from..];
      BoundedSequence(h[..|h| - 1], from, floor);
    }
  }

  lemma BootData(w: World)
    requires Numbers(w) && Data(w) && Enabled(w, Boot)
    ensures Data(Effect(w, Boot))
  {
    var d, h := w.disk, w.hist;
    var m := d.manifest.value;
    var f := d.wals[m.wal];
    assert Logged(f) == f.records;
    var from := |h| - |f.records|;
    var p := Booted(d);
    ResumedSequence(h, from, m.lastSeq);
    ReplayIsFromHistory(h, from);
    BootedLookups(d, h, from);
  }

  /** The layers that recovery builds answer with the latest write. */
  lemma BootedLookups(d: Disk, h: seq<Record>, from: nat)
    requires d.manifest.Some? && d.manifest.value.wal in d.wals && TablesReadable(d, d.manifest.value.tables)
    requires Numbered(h) && from <= |h| && d.wals[d.manifest.value.wal].records == h[from..]
    requires TablesDecide(TableLayers(d, d.manifest.value.tables), from, d.manifest.value.lastSeq, h)
    ensures Agrees(Layers(Booted(d)), h)
  {
    var p := Booted(d);
    assert Layers(p) == [p.active] + Reverse(p.tables);
    assert Layers(p)[1..] == Reverse(p.tables);
    forall k ensures Lookup(Layers(p), k) == Latest(h, k) {
      LatestBySuffix(h, from, k);
      if k !in p.active { TablesHaveTheRest(p.tables, from, d.manifest.value.lastSeq, h, k); }
    }
  }

  lemma LatestAfterWrite(h: seq<Record>, r: Record, k: Key)
    ensures Latest(h + [r], k) == if k == r.key then Some(Entry(r.seqno, r.value)) else Latest(h, k)
    ensures Replay(h + [r]) == Insert(Replay(h), r)
  {
    assert (h + [r])[..|h|] == h;
  }

  lemma LongerHistory(l: Layer, h: seq<Record>, r: Record)
    requires FromHistory(l, h)
    ensures FromHistory(l, h + [r])
  {
    forall k | k in l ensures 1 <= l[k].seqno <= |h + [r]| && (h + [r])[l[k].seqno - 1] == Record(l[k].seqno, k, l[k].value) {
      assert h[l[k].seqno - 1] == Record(l[k].seqno, k, l[k].value);
    }
  }

  lemma TablesDecideAfterWrite(tables: seq<Layer>, base: nat, last: nat, h: seq<Record>, r: Record)
    requires TablesDecide(tables, base, last, h) && base <= |h|
    ensures TablesDecide(tables, base, last, h + [r])
  {
    forall k ensures Decided(tables, base, h + [r], k) {
      assert Decided(tables, base, h, k) && (h + [r])[..base] == h[..base];
    }
    forall i | 0 <= i < |tables| ensures UpTo(tables[i], last, h + [r]) {
      assert UpTo(tables[i], last, h);
      LongerHistory(tables[i], h, r);
    }
  }

  lemma MemWithinAfterWrite(l: Layer, f: WalFile, h: seq<Record>, r: Record)
    requires MemWithin(l, f, h) && (f.stranded != [] ==> f.torn)
    ensures MemWithin(l, Append(f, r), h + [r])
  {
    LongerHistory(l, h, r);
    assert Logged(Append(f, r)) == Logged(f) + [r];
  }

  lemma AllWithinAfterWrite(ls: seq<Layer>, f: WalFile, h: seq<Record>, r: Record)
    requires AllWithin(ls, f, h) && (f.stranded != [] ==> f.torn)
    ensures AllWithin(ls, Append(f, r), h + [r])
  {
    forall i | 0 <= i < |ls| ensures MemWithin(ls[i], Append(f, r), h + [r]) {
      MemWithinAfterWrite(ls[i], f, h, r);
    }
  }

  lemma AppendLogs(f: WalFile, r: Record)
    requires f.stranded != [] ==> f.torn
    ensures Logged(Append(f, r)) == Logged(f) + [r]
  {
  }

  lemma SuffixGrows(log: seq<Record>, h: seq<Record>, r: Record)
    requires Numbered(h) && |log| <= |h| && log == h[|h| - |log|..] && r.seqno == |h| + 1
    ensures Numbered(h + [r]) && log + [r] == (h + [r])[|h| - |log|..]
  {
  }

  lemma LogAppendDisk(d: Disk, d': Disk, h: seq<Record>, r: Record)
    requires DiskData(d, h) && d.manifest.Some? && r.seqno == |h| + 1
    requires var n := d.manifest.value.wal;
      (d.wals[n].stranded != [] ==> d.wals[n].torn) && d' == d.(wals := d.wals[n := Append(d.wals[n], r)])
    ensures DiskData(d', h + [r])
  {
    var m := d.manifest.value;
    var log := Logged(d.wals[m.wal]);
    AppendLogs(d.wals[m.wal], r);
    SuffixGrows(log, h, r);
    assert TableLayers(d', m.tables) == TableLayers(d, m.tables);
    TablesDecideAfterWrite(TableLayers(d, m.tables), |h| - |log|, m.lastSeq, h, r);
  }

  lemma LogAppendData(w: World, r: Record)
    requires Numbers(w) && Data(w) && Enabled(w, Do(LogAppend(r)))
    ensures Data(Effect(w, Do(LogAppend(r))))
  {
    var w' := Effect(w, Do(LogAppend(r)));
    LogAppendDisk(w.disk, w'.disk, w.hist, r);
    var p, q := w.proc.value, w'.proc.value;
    assert Applied(q, w'.hist) == w.hist;
    assert Layers(q) == Layers(p);
    MemWithinAfterWrite(p.active, w.disk.wals[p.wal], w.hist, r);
    AllWithinAfterWrite(p.imms, w.disk.wals[p.wal], w.hist, r);
    assert Logged(w'.disk.wals[q.wal]) == Logged(w.disk.wals[p.wal]) + [r];
  }

  lemma SameLogWithin(l: Layer, ls: seq<Layer>, f: WalFile, g: WalFile, h: seq<Record>)
    requires Logged(f) == Logged(g) && MemWithin(l, f, h) && AllWithin(ls, f, h)
    ensures MemWithin(l, g, h) && AllWithin(ls, g, h)
  {
    forall i | 0 <= i < |ls| ensures MemWithin(ls[i], g, h) {
      assert MemWithin(ls[i], f, h);
    }
  }

  lemma LogTearData(w: World, n: nat)
    requires Numbers(w) && Data(w) && Enabled(w, Do(LogTear(n)))
    ensures Data(Effect(w, Do(LogTear(n))))
  {
    var d, d' := w.disk, Effect(w, Do(LogTear(n))).disk;
    var p := w.proc.value;
    assert Logged(d'.wals[p.wal]) == Logged(d.wals[p.wal]);
    assert TableLayers(d', p.manifest.tables) == TableLayers(d, p.manifest.tables);
    SameLogWithin(p.active, p.imms, d.wals[p.wal], d'.wals[p.wal], w.hist);
  }

  /** The MemTable takes the write in flight: lookups now include it. */
  lemma AbsorbedLookups(p: Proc, live: bool, missed: bool, h0: seq<Record>)
    requires p.pending.Some? && Agrees(Layers(p), h0)
    ensures Agrees(Layers(Absorbed(p, live, missed)), h0 + [p.pending.value])
  {
    var q, r := Absorbed(p, live, missed), p.pending.value;
    forall k ensures Lookup(Layers(q), k) == Latest(h0 + [r], k) {
      LatestAfterWrite(h0, r, k);
      assert Lookup(Layers(p), k) == Latest(h0, k);
      assert Layers(q)[1..] == Layers(p)[1..];
    }
  }

  lemma AbsorbedWithin(l: Layer, f: WalFile, h: seq<Record>)
    requires Numbered(h) && h != [] && MemWithin(l, f, h)
    requires Logged(f) != [] && |Logged(f)| <= |h| && Logged(f) == h[|h| - |Logged(f)|..]
    ensures MemWithin(Insert(l, h[|h| - 1]), f, h)
  {
    assert Logged(f)[|Logged(f)| - 1] == h[|h| - 1];
    assert FromHistory(Insert(l, h[|h| - 1]), h);
  }

  lemma AbsorbData(w: World, missed: bool)
    requires Numbers(w) && Data(w) && Enabled(w, Do(Absorb(missed)))
    ensures Data(Effect(w, Do(Absorb(missed))))
  {
    var p, h := w.proc.value, w.hist;
    assert h == Applied(p, h) + [p.pending.value];
    AbsorbedLookups(p, Live(Lookup(Layers(p), p.pending.value.key)), missed, Applied(p, h));
    AbsorbedWithin(p.active, w.disk.wals[p.wal], h);
  }

  lemma FrozenWithin(l: Layer, ls: seq<Layer>, f: WalFile, h: seq<Record>)
    requires MemWithin(l, f, h) && AllWithin(ls, f, h)
    ensures MemWithin(map[], f, h) && AllWithin([l] + ls, f, h)
  {
  }

  lemma FreezeData(w: World)
    requires Numbers(w) && Data(w) && Enabled(w, Do(Freeze))
    ensures Data(Effect(w, Do(Freeze)))
  {
    var p, q := w.proc.value, Effect(w, Do(Freeze)).proc.value;
    FrozenWithin(p.active, p.imms, w.disk.wals[p.wal], w.hist);
    assert Agrees(Layers(q), w.hist) by {
      FreezeKeepsLookups(p);
      assert Agrees(Layers(p), w.hist);
    }
  }

  /** What DiskData and ProcData say rests on the manifest, the current log and the listed tables. */
  lemma DataFrame(d: Disk, d': Disk, p: Proc, q: Proc, h: seq<Record>)
    requires DiskData(d, h) && ProcNumbers(d, p) && ProcData(d, p, h)
    requires d'.manifest == d.manifest && p.wal in d'.wals && d'.wals[p.wal] == d.wals[p.wal]
    requires forall t :: t in p.manifest.tables ==> t in d'.tables && d'.tables[t] == d.tables[t]
    requires q == p.(nextFile := q.nextFile, pc := q.pc)
    requires q.pc.Published? || q.pc.Rotating? ==> p.pc.Published? || p.pc.Rotating?
    ensures DiskData(d', h) && ProcData(d', q, h)
  {
    assert TableLayers(d', p.manifest.tables) == TableLayers(d, p.manifest.tables);
    assert Layers(q) == Layers(p);
  }

  lemma TableWriteData(w: World, s: Step)
    requires Numbers(w) && Data(w) && Enabled(w, Do(s)) && (s.NewTable? || s.WriteTable?)
    ensures Data(Effect(w, Do(s)))
  {
    var w' := Effect(w, Do(s));
    DataFrame(w.disk, w'.disk, w.proc.value, w'.proc.value, w.hist);
  }

  /** A further newest table, with writes that the log has, leaves the tables in charge of the rest. */
  lemma OneMoreTableDecides(tables: seq<Layer>, x: Layer, base: nat, last: nat, h: seq<Record>)
    requires TablesDecide(tables, base, last, h) && last <= |h| && FromHistory(x, h) && forall k :: k in x ==> x[k].seqno > base
    ensures TablesDecide(tables + [x], base, |h|, h)
  {
    ReverseAppend(tables, x);
    forall k ensures Decided(tables + [x], base, h, k) {
      assert Decided(tables, base, h, k) && Reverse(tables + [x])[1..] == Reverse(tables);
    }
    forall i | 0 <= i < |tables + [x]| ensures UpTo((tables + [x])[i], |h|, h) {
      if i < |tables| { assert UpTo(tables[i], last, h); }
    }
  }

  lemma PublishData(w: World)
    requires Numbers(w) && Data(w) && Enabled(w, Do(PublishTable))
    ensures Data(Effect(w, Do(PublishTable)))
  {
    var p, h := w.proc.value, w.hist;
    var x := p.imms[|p.imms| - 1];
    PublishKeepsLayers(w.disk, p);
    NewTableIsLast(w.disk, p);
    assert MemWithin(x, w.disk.wals[p.wal], h);
    OneMoreTableDecides(p.tables, x, |h| - |Logged(w.disk.wals[p.wal])|, w.disk.manifest.value.lastSeq, h);
  }

  lemma NewWalData(w: World, s: Step)
    requires Numbers(w) && Data(w) && Enabled(w, Do(s)) && s.NewWal?
    ensures Data(Effect(w, Do(s)))
  {
    var w' := Effect(w, Do(s));
    DataFrame(w.disk, w'.disk, w.proc.value, w'.proc.value, w.hist);
  }

  lemma TablesDecideAlone(p: Proc, h: seq<Record>)
    requires Agrees(Layers(p), h) && p.active == map[] && p.imms == []
    requires forall i :: 0 <= i < |p.tables| ==> FromHistory(p.tables[i], h)
    ensures TablesDecide(p.tables, |h|, |h|, h)
  {
    assert Layers(p)[1..] == Reverse(p.tables) && h[..|h|] == h;
    forall k ensures Decided(p.tables, |h|, h, k) {
      assert Lookup(Layers(p), k) == Latest(h, k);
    }
    forall i | 0 <= i < |p.tables| ensures UpTo(p.tables[i], |h|, h) { }
  }

  /** Rotation hands the whole history over to the tables. */
  lemma RotateDisk(d: Disk, p: Proc, h: seq<Record>)
    requires DiskData(d, h) && ProcNumbers(d, p) && ProcData(d, p, h) && StepEnabled(d, p, Rotate)
    requires p.pc.n in d.wals && d.wals[p.pc.n] == EMPTY_WAL
    ensures DiskData(StepEffect(d, p, Rotate).0, h)
  {
    var d' := StepEffect(d, p, Rotate).0;
    assert TableLayers(d', p.manifest.tables) == p.tables;
    forall i | 0 <= i < |p.tables| ensures FromHistory(p.tables[i], h) { assert UpTo(p.tables[i], d.manifest.value.lastSeq, h); }
    TablesDecideAlone(p, h);
  }

  lemma RotateData(w: World)
    requires Numbers(w) && Data(w) && Enabled(w, Do(Rotate))
    ensures Data(Effect(w, Do(Rotate)))
  {
    var p := w.proc.value;
    var q := StepEffect(w.disk, p, Rotate).1;
    RotateDisk(w.disk, p, w.hist);
    assert Layers(q) == Layers(p);
  }

  lemma DropWalData(w: World, s: Step)
    requires Numbers(w) && Data(w) && Enabled(w, Do(s)) && s.DropWal?
    ensures Data(Effect(w, Do(s)))
  {
    var w' := Effect(w, Do(s));
    DataFrame(w.disk, w'.disk, w.proc.value, w'.proc.value, w.hist);
  }
}
