/** The promises of PebbleDB's engine, stated for every run: any sequence of writes, flushes with
    failures and retries, crashes after any action, and recoveries.
    (projects/06-pebbledb/src/db.cpp, projects/06-pebbledb/docs/decisions/0016) */
module PebbleGuarantees {
  import opened PebbleHistory
  import opened PebbleEngine
  import opened PebbleEngineProofs

  lemma InvKept(w: World, a: Action)
    requires Inv(w) && Enabled(w, a)
    ensures Inv(Effect(w, a))
  {
    NumbersKept(w, a);
    if a.Do? { CounterKept(w.disk, w.proc.value, a.s); }
    if Effect(w, a).sound { DataKept(w, a); }
  }

  lemma {:induction false} InvEverywhere(acts: seq<Action>)
    requires IsRun(acts)
    ensures Inv(After(acts))
  {
    if acts != [] {
      var before := acts[..|acts| - 1];
      InvEverywhere(before);
      InvKept(After(before), acts[|acts| - 1]);
    }
  }

  lemma NumbersEverywhere(acts: seq<Action>)
    requires IsRun(acts)
    ensures Numbers(After(acts))
  {
    InvEverywhere(acts);
  }

  lemma Extend(acts: seq<Action>, a: Action)
    requires IsRun(acts) && Enabled(After(acts), a)
    ensures IsRun(acts + [a]) && After(acts + [a]) == Effect(After(acts), a)
    ensures !a.Do? ==> Accepted(acts + [a]) == Accepted(acts)
    ensures forall r :: a == Do(LogAppend(r)) ==> Accepted(acts + [a]) == Accepted(acts) + [r]
  {
    assert (acts + [a])[..|acts|] == acts;
  }

  lemma Shorten(acts: seq<Action>, a: Action)
    requires IsRun(acts + [a])
    ensures IsRun(acts) && Enabled(After(acts), a)
  {
    assert (acts + [a])[..|acts|] == acts;
  }

  /** What recovery finds on the disk. */
  lemma OnDisk(acts: seq<Action>)
    requires IsRun(acts) && After(acts).disk.manifest.Some?
    ensures var w := After(acts); var m := w.disk.manifest.value;
      && m.wal in w.disk.wals && m.wal >= 1 && TablesReadable(w.disk, m.tables)
      && |w.disk.wals[m.wal].stranded| <= |w.hist|
      && (w.disk.wals[m.wal].stranded != [] ==> w.disk.wals[m.wal].torn)
  {
    NumbersEverywhere(acts);
  }

  /** What a running process may rely on. */
  lemma Running(acts: seq<Action>)
    requires IsRun(acts) && After(acts).proc.Some?
    ensures var w := After(acts); var p := w.proc.value;
      && p.wal in w.disk.wals && p.nextSeq >= 1
      && (p.pc.Building? ==> p.imms != [])
      && (p.pc.Removing? ==> p.wal in w.disk.wals && p.pc.w < p.wal)
  {
    NumbersEverywhere(acts);
  }

  /** The process once the table made of its oldest frozen MemTable is listed. */
  function Adopted(p: Proc, m: Manifest): Proc
    requires p.imms != []
  {
    p.(manifest := m, tables := p.tables + [p.imms[|p.imms| - 1]], imms := p.imms[..|p.imms| - 1], pc := Published)
  }

  /** The layers that take no more writes, oldest first. */
  function Sealed(p: Proc): seq<Layer> {
    p.tables + Reverse(p.imms)
  }

  lemma AdoptingKeepsLayers(p: Proc, m: Manifest)
    requires p.imms != []
    ensures Layers(Adopted(p, m)) == Layers(p) && Sealed(Adopted(p, m)) == Sealed(p)
  {
    var rest, x := p.imms[..|p.imms| - 1], p.imms[|p.imms| - 1];
    assert p.imms == rest + [x];
    ReverseAppend(p.tables, x);
    ReverseAppend(rest, x);
  }

  /** Once the scratch manifest lists the finished table, the rename publishes it. */
  lemma TableCanBePublished(w: World, p: Proc, t: nat)
    requires w.proc == Some(p) && p.pc == Building(t) && p.imms != [] && p.nextSeq >= 1
    requires t in w.disk.tables && w.disk.tables[t] == Finished(p.imms[|p.imms| - 1])
    ensures var m := TableManifest(p, t); var ready := w.(disk := w.disk.(tmp := WholeTmp(m)));
      && Enabled(ready, Do(PublishTable))
      && Effect(ready, Do(PublishTable)) == World(w.disk.(manifest := Some(m), tmp := NoTmp), Some(Adopted(p, m)), w.hist, w.whole, w.sound)
  {
  }

  /** Likewise for the manifest that names a new log. */
  lemma LogCanBeRotated(w: World, p: Proc, n: nat)
    requires w.proc == Some(p) && p.pc == Rotating(n)
    ensures var m := p.manifest.(wal := n); var ready := w.(disk := w.disk.(tmp := WholeTmp(m)));
      && Enabled(ready, Do(Rotate))
      && Effect(ready, Do(Rotate))
         == World(w.disk.(manifest := Some(m), tmp := NoTmp), Some(p.(manifest := m, wal := n, pc := Removing(p.wal))), w.hist, w.whole, w.sound)
  {
  }

  /** The log takes a write. */
  lemma Appending(acts: seq<Action>, r: Record)
    requires IsRun(acts) && After(acts).proc.Some?
    requires var p := After(acts).proc.value; Quiet(p) && p.wal in After(acts).disk.wals && r.seqno == p.nextSeq
    ensures var w := After(acts); var p := w.proc.value; var all := acts + [Do(LogAppend(r))];
      && IsRun(all) && Accepted(all) == Accepted(acts) + [r]
      && After(all) == World(w.disk.(wals := w.disk.wals[p.wal := Append(w.disk.wals[p.wal], r)]), Some(p.(pending := Some(r))), w.hist + [r], w.whole, w.sound)
  {
    Extend(acts, Do(LogAppend(r)));
  }

  /** A write fails half-way into the log. */
  lemma Tearing(acts: seq<Action>, n: nat)
    requires IsRun(acts) && After(acts).proc.Some?
    requires var p := After(acts).proc.value; Quiet(p) && p.wal in After(acts).disk.wals && n > 0
    ensures var w := After(acts); var p := w.proc.value; var all := acts + [Do(LogTear(n))];
      && IsRun(all) && Accepted(all) == Accepted(acts)
      && After(all) == w.(disk := w.disk.(wals := w.disk.wals[p.wal := Torn(w.disk.wals[p.wal], n)]))
  {
    Extend(acts, Do(LogTear(n)));
    assert (acts + [Do(LogTear(n))])[..|acts|] == acts;
  }

  /** A write is wholly in the log, and refused. */
  lemma Refusing(acts: seq<Action>, r: Record)
    requires IsRun(acts) && After(acts).proc.Some?
    requires var p := After(acts).proc.value; Quiet(p) && p.wal in After(acts).disk.wals && r.seqno == p.nextSeq
    ensures var w := After(acts); var p := w.proc.value; var all := acts + [Do(LogUnsynced(r))];
      && IsRun(all) && Accepted(all) == Accepted(acts)
      && After(all) == World(w.disk.(wals := w.disk.wals[p.wal := Append(w.disk.wals[p.wal], r)]), Some(p), w.hist + [r], false, false)
  {
    Extend(acts, Do(LogUnsynced(r)));
    assert (acts + [Do(LogUnsynced(r))])[..|acts|] == acts;
  }

  lemma FirstManifestCanBePublished(w: World)
    requires w.proc == None && w.disk.manifest == None && 1 in w.disk.wals
    ensures var ready := w.(disk := w.disk.(tmp := WholeTmp(FIRST_MANIFEST)));
      && Enabled(ready, FreshManifest)
      && Effect(ready, FreshManifest) == w.(disk := w.disk.(manifest := Some(FIRST_MANIFEST), tmp := NoTmp))
  {
  }

  /** What recovery finds on the disk through a manifest. */
  predicate Tailed(d: Disk, m: Manifest) {
    && m.wal in d.wals && TablesReadable(d, m.tables)
    && (d.wals[m.wal].stranded != [] ==> d.wals[m.wal].torn)
  }

  /** What recovery needs from the disk, once a torn log has been cut. */
  predicate Bootable(d: Disk) {
    && d.manifest.Some? && d.manifest.value.wal in d.wals && !d.wals[d.manifest.value.wal].torn
    && TablesReadable(d, d.manifest.value.tables)
  }

  lemma Booting(acts: seq<Action>)
    requires IsRun(acts) && After(acts).proc == None && Bootable(After(acts).disk)
    ensures var w := After(acts); var all := acts + [Boot];
      IsRun(all) && After(all) == World(w.disk, Some(Booted(w.disk)), w.hist, w.whole, w.sound) && Accepted(all) == Accepted(acts)
  {
    Extend(acts, Boot);
  }

  /** What recovery finds when there is no manifest: nothing was ever accepted. */
  lemma NothingOnDisk(acts: seq<Action>)
    requires IsRun(acts) && After(acts).disk.manifest == None
    ensures var w := After(acts);
      w.proc == None && w.whole && w.hist == [] && forall n :: n in w.disk.wals ==> w.disk.wals[n] == EMPTY_WAL
  {
    NumbersEverywhere(acts);
  }

  /** As long as no stranded record has been cut away and every write in the log was accepted, the engine's
      history is what was accepted. */
  lemma {:induction false} HistoryIsAccepted(acts: seq<Action>)
    requires IsRun(acts) && After(acts).whole
    ensures After(acts).hist == Accepted(acts)
  {
    if acts != [] {
      var before := acts[..|acts| - 1];
      HistoryIsAccepted(before);
    }
  }

  /** A running process serves every accepted write, except one that is still in flight. */
  lemma ServesAcceptedWrites(acts: seq<Action>)
    requires IsRun(acts) && After(acts).whole && After(acts).proc.Some?
    ensures var p := After(acts).proc.value;
      && View(Layers(p)) == Fold(Applied(p, Accepted(acts)))
      && (p.pending == None ==> View(Layers(p)) == Fold(Accepted(acts)))
      && (p.pending.Some? ==> Write(View(Layers(p)), p.pending.value) == Fold(Accepted(acts)))
  {
    InvEverywhere(acts);
    HistoryIsAccepted(acts);
    AgreeingLayersShowTheFold(Layers(After(acts).proc.value), Applied(After(acts).proc.value, After(acts).hist));
  }

  /** Under that condition a successful recovery yields exactly the map of all accepted writes. */
  lemma RecoveryYieldsAcceptedWrites(acts: seq<Action>)
    requires IsRun(acts + [Boot]) && After(acts + [Boot]).whole
    ensures View(Layers(After(acts + [Boot]).proc.value)) == Fold(Accepted(acts))
  {
    Shorten(acts, Boot);
    Extend(acts, Boot);
    ServesAcceptedWrites(acts + [Boot]);
  }

  function Tail(w: World): WalFile
    requires w.disk.manifest.Some? && w.disk.manifest.value.wal in w.disk.wals
  {
    w.disk.wals[w.disk.manifest.value.wal]
  }

  /** The current log holds records behind the bytes of a failed append. */
  predicate Stranded(d: Disk) {
    d.manifest.Some? && d.manifest.value.wal in d.wals && d.wals[d.manifest.value.wal].stranded != []
  }

  /** The actions of a crash and the recovery that follows it. */
  function CrashAndReopen(w: World): seq<Action>
    requires w.disk.manifest.Some? && w.disk.manifest.value.wal in w.disk.wals
  {
    [Crash] + (if Tail(w).torn then [CutTail] else []) + [Boot]
  }

  lemma CutIsPossible(acts: seq<Action>)
    requires IsRun(acts) && After(acts).disk.manifest.Some? && After(acts).proc == None
    requires After(acts).disk.manifest.value.wal in After(acts).disk.wals && Tail(After(acts)).torn
    requires !Jammed(Tail(After(acts)))
    ensures IsRun(acts + [CutTail]) && Accepted(acts + [CutTail]) == Accepted(acts)
    ensures var w, w' := After(acts), After(acts + [CutTail]); var lost := |Tail(w).stranded|;
      && w'.disk.manifest == w.disk.manifest && w'.proc == None
      && w'.disk.manifest.value.wal in w'.disk.wals && !Tail(w').torn
      && lost <= |w.hist| && w'.hist == w.hist[..|w.hist| - lost] && w'.whole == (w.whole && Tail(w).stranded == [])
  {
    OnDisk(acts);
    Extend(acts, CutTail);
  }

  lemma BootIsPossible(acts: seq<Action>)
    requires IsRun(acts) && After(acts).disk.manifest.Some? && After(acts).proc == None
    requires After(acts).disk.manifest.value.wal in After(acts).disk.wals && !Tail(After(acts)).torn
    ensures IsRun(acts + [Boot]) && Accepted(acts + [Boot]) == Accepted(acts)
    ensures var w, w' := After(acts), After(acts + [Boot]);
      w'.disk == w.disk && w'.hist == w.hist && w'.whole == w.whole && w'.proc.Some? && w'.proc.value.pending == None
  {
    OnDisk(acts);
    Extend(acts, Boot);
  }

  /** `all` is a run that reopens the database after `w`: it drops w's stranded records, nothing else. */
  ghost predicate Reopens(w: World, accepted: seq<Record>, all: seq<Action>)
    requires w.disk.manifest.Some? && w.disk.manifest.value.wal in w.disk.wals
  {
    && IsRun(all) && After(all).proc.Some? && After(all).proc.value.pending == None
    && After(all).whole == (w.whole && Tail(w).stranded == [])
    && |Tail(w).stranded| <= |w.hist|
    && After(all).hist == w.hist[..|w.hist| - |Tail(w).stranded|]
    && Accepted(all) == accepted
  }

  lemma ReopenTorn(acts: seq<Action>)
    requires IsRun(acts) && After(acts).disk.manifest.Some?
    requires After(acts).disk.manifest.value.wal in After(acts).disk.wals && Tail(After(acts)).torn && !Jammed(Tail(After(acts)))
    ensures Reopens(After(acts), Accepted(acts), acts + [Crash] + [CutTail] + [Boot])
  {
    var w := After(acts);
    Extend(acts, Crash);
    CutAndBoot(acts + [Crash], w, Accepted(acts));
  }

  lemma CutAndBoot(acts: seq<Action>, w: World, accepted: seq<Record>)
    requires IsRun(acts) && After(acts) == w.(proc := None) && Accepted(acts) == accepted
    requires w.disk.manifest.Some? && w.disk.manifest.value.wal in w.disk.wals && Tail(w).torn && !Jammed(Tail(w))
    ensures Reopens(w, accepted, acts + [CutTail] + [Boot])
  {
    CutIsPossible(acts);
    BootIsPossible(acts + [CutTail]);
  }

  lemma ReopenIntact(acts: seq<Action>)
    requires IsRun(acts) && After(acts).disk.manifest.Some?
    requires After(acts).disk.manifest.value.wal in After(acts).disk.wals && !Tail(After(acts)).torn
    ensures Reopens(After(acts), Accepted(acts), acts + [Crash] + [Boot])
  {
    OnDisk(acts);
    Extend(acts, Crash);
    BootIsPossible(acts + [Crash]);
    var h := After(acts).hist;
    assert h[..|h|] == h;
  }

  lemma OneByOne(acts: seq<Action>, a: seq<Action>, b: seq<Action>, c: seq<Action>)
    ensures acts + (a + b + c) == acts + a + b + c
    ensures b == [] ==> acts + (a + b + c) == acts + a + c
  {
  }

  /** The log that the manifest names has been filled up behind a torn record. */
  predicate LogJammed(w: World) {
    w.disk.manifest.Some? && w.disk.manifest.value.wal in w.disk.wals && Jammed(Tail(w))
  }

  /** Unless that has happened, recovery can follow a crash at any point of a run; it drops the stranded
      records and nothing else. */
  lemma ReopenIsPossible(acts: seq<Action>)
    requires IsRun(acts) && After(acts).disk.manifest.Some? && !LogJammed(After(acts))
    ensures var w := After(acts); w.disk.manifest.value.wal in w.disk.wals
    ensures Reopens(After(acts), Accepted(acts), acts + CrashAndReopen(After(acts)))
  {
    OnDisk(acts);
    if Tail(After(acts)).torn {
      ReopenTorn(acts);
      OneByOne(acts, [Crash], [CutTail], [Boot]);
    } else {
      ReopenIntact(acts);
      OneByOne(acts, [Crash], [], [Boot]);
    }
  }

  /** Once it has, no process ever comes up again, whatever is tried. */
  lemma {:induction false} JammedStaysShut(acts: seq<Action>, more: seq<Action>)
    requires IsRun(acts) && After(acts).proc == None && LogJammed(After(acts)) && IsRun(acts + more)
    ensures After(acts + more).proc == None && LogJammed(After(acts + more))
    decreases |more|
  {
    if more == [] {
      assert acts + more == acts;
    } else {
      var n := |more| - 1;
      assert acts + more == acts + more[..n] + [more[n]];
      Shorten(acts + more[..n], more[n]);
      JammedStaysShut(acts, more[..n]);
      Extend(acts + more[..n], more[n]);
    }
  }

  /** Some attempt `more` to open the database works. */
  predicate OpensWith(acts: seq<Action>, more: seq<Action>) {
    IsRun(acts + more) && After(acts + more).proc.Some?
  }

  ghost predicate CanBeOpened(acts: seq<Action>) {
    exists more :: OpensWith(acts, more)
  }

  /** Exactly when a database can be opened after a crash: when the log has not been filled up behind a torn
      record. */
  lemma OpensIffNotJammed(acts: seq<Action>)
    requires IsRun(acts) && After(acts).disk.manifest.Some?
    ensures IsRun(acts + [Crash]) && (CanBeOpened(acts + [Crash]) <==> !LogJammed(After(acts)))
  {
    Extend(acts, Crash);
    if LogJammed(After(acts)) {
      forall more ensures !OpensWith(acts + [Crash], more) {
        if IsRun(acts + [Crash] + more) { JammedStaysShut(acts + [Crash], more); }
      }
    } else {
      ReopenIsPossible(acts);
      OpensAgain(acts, if Tail(After(acts)).torn then [CutTail] else []);
    }
  }

  lemma OpensAgain(acts: seq<Action>, cut: seq<Action>)
    requires IsRun(acts + ([Crash] + cut + [Boot])) && After(acts + ([Crash] + cut + [Boot])).proc.Some?
    ensures CanBeOpened(acts + [Crash])
  {
    assert acts + ([Crash] + cut + [Boot]) == acts + [Crash] + (cut + [Boot]);
    assert OpensWith(acts + [Crash], cut + [Boot]);
  }

  /** A crash at any point of a run loses nothing the process served: the reopened database shows the
      same map, plus the one write that was in the log but not yet visible. */
  lemma CrashKeepsEverythingServed(acts: seq<Action>)
    requires IsRun(acts) && After(acts).whole && After(acts).proc.Some?
    requires var w := After(acts); w.disk.manifest.Some? && w.disk.manifest.value.wal in w.disk.wals && Tail(w).stranded == [] && !LogJammed(w)
    ensures var w := After(acts); var p := w.proc.value; var all := acts + CrashAndReopen(w);
      && IsRun(all) && After(all).proc.Some?
      && View(Layers(After(all).proc.value)) == if p.pending.Some? then Write(View(Layers(p)), p.pending.value) else View(Layers(p))
  {
    ReopenIsPossible(acts);
    ServesAcceptedWrites(acts);
    ServesAcceptedWrites(acts + CrashAndReopen(After(acts)));
  }

  /** Exactly when an accepted write survives a crash that follows it: when the log it went to was
      not left torn by an earlier, failed append. */
  lemma AcceptedWriteSurvivesIffLogIntact(acts: seq<Action>, r: Record)
    requires IsRun(acts) && After(acts).whole && Enabled(After(acts), Do(LogAppend(r)))
    requires var w := After(acts); w.disk.manifest.Some? && w.disk.manifest.value.wal in w.disk.wals && Tail(w).stranded == []
    ensures var written := acts + [Do(LogAppend(r))];
      && IsRun(written) && After(written).disk.manifest.Some? && After(written).disk.manifest.value.wal in After(written).disk.wals
      && var all := written + CrashAndReopen(After(written));
      (IsRun(all) && After(all).hist == Accepted(all) <==> !Tail(After(acts)).torn)
  {
    InvEverywhere(acts);
    HistoryIsAccepted(acts);
    var written := acts + [Do(LogAppend(r))];
    Extend(acts, Do(LogAppend(r)));
    assert written[..|acts|] == acts;
    if LogJammed(After(written)) {
      JammedIsNoRun(written);
    } else {
      ReopenIsPossible(written);
    }
  }

  lemma JammedIsNoRun(acts: seq<Action>)
    requires IsRun(acts) && LogJammed(After(acts))
    ensures !IsRun(acts + CrashAndReopen(After(acts)))
  {
    Extend(acts, Crash);
    OneByOne(acts, [Crash], [CutTail], [Boot]);
    if IsRun(acts + [Crash] + [CutTail] + [Boot]) {
      Shorten(acts + [Crash] + [CutTail], Boot);
      Shorten(acts + [Crash], CutTail);
    }
  }

  /** A caller's rule: after a write fails, write no more before the next recovery or rotation. `torn` says
      that an append has failed half-way; that no sync fails is not up to the caller. */
  function Cautious(acts: seq<Action>): (r: (bool, bool)) {
    if acts == [] then (true, false)
    else
      var (ok, torn) := Cautious(acts[..|acts| - 1]);
      match acts[|acts| - 1]
      case Do(LogAppend(_)) => (ok && !torn, torn)
      case Do(LogTear(_)) => (ok && !torn, true)
      case Do(LogUnsynced(_)) => (false, torn)
      case Do(Rotate) => (ok, false)
      case CutTail => (ok, false)
      case _ => (ok, torn)
  }

  ghost predicate Lossless(w: World, torn: bool) {
    && w.whole
    && (w.disk.manifest.Some? ==>
          && w.disk.manifest.value.wal in w.disk.wals
          && Tail(w).stranded == [] && Tail(w).torn == torn && !LogJammed(w))
    && (w.disk.manifest == None ==> !torn)
  }

  lemma CautiousStep(w: World, a: Action, torn: bool)
    requires Numbers(w) && Lossless(w, torn) && Enabled(w, a)
    requires a.Do? ==> !a.s.LogUnsynced? && (a.s.LogAppend? || a.s.LogTear? ==> !torn)
    ensures Lossless(Effect(w, a), match a case Do(LogTear(_)) => true case Do(Rotate) => false case CutTail => false case _ => torn)
  {
    if a.Do? {
      var w' := Effect(w, a);
      var p := w.proc.value;
      assert w'.disk.manifest.value.wal == if a.s.Rotate? then p.pc.n else p.wal;
      assert a.s.Rotate? ==> Tail(w') == EMPTY_WAL;
    }
  }

  /** Under that rule no recovery, however many crashes there are, ever loses an accepted write, and the
      database can always be opened again. */
  lemma {:induction false} CautiousRunsLoseNothing(acts: seq<Action>)
    requires IsRun(acts) && Cautious(acts).0
    ensures Lossless(After(acts), Cautious(acts).1) && After(acts).hist == Accepted(acts)
  {
    if acts != [] {
      var before := acts[..|acts| - 1];
      CautiousRunsLoseNothing(before);
      NumbersEverywhere(before);
      CautiousStep(After(before), acts[|acts| - 1], Cautious(before).1);
    }
    HistoryIsAccepted(acts);
  }

  /** The MemTable taking the logged write is, to a reader, the write itself. */
  lemma AbsorbingIsWriting(p: Proc, live: bool, missed: bool)
    requires p.pending.Some?
    ensures View(Layers(Absorbed(p, live, missed))) == Write(View(Layers(p)), p.pending.value)
  {
    var r := p.pending.value;
    var q := Absorbed(p, live, missed);
    var rest := p.imms + Reverse(p.tables);
    assert Layers(p) == [p.active] + rest;
    assert Layers(q) == [q.active] + rest;
    InsertedLiveKeys(p.active, rest, r);
    forall k ensures k in View(Layers(q)) <==> k in Write(View(Layers(p)), r)
    {
      LiveKeysAreLive(Layers(p), k);
      LiveKeysAreLive(Layers(q), k);
    }
    forall k | k in View(Layers(q)) && k != r.key ensures View(Layers(q))[k] == View(Layers(p))[k] {
      LiveKeysAreLive(Layers(q), k);
      LiveKeysAreLive(Layers(p), k);
      assert Layers(p)[1..] == rest && Layers(q)[1..] == rest;
    }
    if r.key in View(Layers(q)) {
      LiveKeysAreLive(Layers(q), r.key);
    }
  }

  /** Freezing, building, publishing, rotating and giving up leave every merged lookup as it was. */
  lemma OnlyWritesChangeLookups(d: Disk, p: Proc, s: Step, k: Key)
    requires StepEnabled(d, p, s) && !s.Absorb?
    ensures Lookup(Layers(StepEffect(d, p, s).1), k) == Lookup(Layers(p), k)
  {
    if s.Freeze? {
      FreezeKeepsLookups(p);
    } else if s.PublishTable? {
      PublishKeepsLayers(d, p);
    } else {
      assert Layers(StepEffect(d, p, s).1) == Layers(p);
    }
  }

  lemma LayerFromHistory(d: Disk, p: Proc, h: seq<Record>, i: nat)
    requires DiskData(d, h) && ProcNumbers(d, p) && ProcData(d, p, h) && i < |Layers(p)|
    ensures FromHistory(Layers(p)[i], h)
  {
    var back := i - 1 - |p.imms|;
    if back >= 0 {
      forall t | 0 <= t < |p.tables| ensures FromHistory(p.tables[t], h) { assert UpTo(p.tables[t], p.manifest.lastSeq, h); }
      ReversedFrom(p.tables, h);
      assert Layers(p)[i] == Reverse(p.tables)[back];
    } else if i > 0 {
      assert Layers(p)[i] == p.imms[i - 1];
      assert MemWithin(p.imms[i - 1], d.wals[p.wal], h);
    }
  }

  /** The layer that answers for a key holds the highest sequence number any layer has for it; this
      also covers a database reopened after a crash between a table publish and the rotation. */
  lemma AnsweringLayerIsNewest(acts: seq<Action>, i: nat, k: Key)
    requires IsRun(acts) && After(acts).sound && After(acts).proc.Some? && After(acts).proc.value.pending == None
    requires i < |Layers(After(acts).proc.value)| && k in Layers(After(acts).proc.value)[i]
    ensures var ls := Layers(After(acts).proc.value);
      Lookup(ls, k).Some? && ls[i][k].seqno <= Lookup(ls, k).value.seqno
  {
    InvEverywhere(acts);
    var w, p := After(acts), After(acts).proc.value;
    LayerFromHistory(w.disk, p, w.hist, i);
    AnswerIsNewest(Layers(p), w.hist, i, k);
  }

  /** The live-key counter is the number of keys a reader sees, plus the lookups that failed on a live
      key; so it never undercounts. */
  lemma LiveCounterIsExact(acts: seq<Action>)
    requires IsRun(acts) && After(acts).proc.Some?
    ensures var p := After(acts).proc.value;
      && p.live == |View(Layers(p)).Keys| + p.misread
      && (After(acts).whole && p.pending == None && p.misread == 0 ==> p.live == |Fold(Accepted(acts)).Keys|)
  {
    InvEverywhere(acts);
    var p := After(acts).proc.value;
    forall k ensures k in View(Layers(p)).Keys <==> k in LiveKeys(Layers(p)) {
      LiveKeysAreLive(Layers(p), k);
    }
    assert View(Layers(p)).Keys == LiveKeys(Layers(p));
    if After(acts).whole { ServesAcceptedWrites(acts); }
  }

  /** File numbers are never reused for something live: a rotation moves to a strictly higher log
      number, whose file is empty, although the manifest it saves has a stale next file number. */
  lemma RotationIsFresh(acts: seq<Action>)
    requires IsRun(acts) && Enabled(After(acts), Do(Rotate))
    ensures var p := After(acts).proc.value; var m := Effect(After(acts), Do(Rotate)).disk.manifest.value;
      && m.wal > p.wal && m.wal in After(acts).disk.wals && After(acts).disk.wals[m.wal] == EMPTY_WAL
      && m.nextFile == m.wal
      && p.active == map[] && p.imms == []
  {
    NumbersEverywhere(acts);
  }

  /** A published table's number is above every table the manifest already lists, and the table is
      the whole oldest immutable MemTable. */
  lemma PublishIsFresh(acts: seq<Action>)
    requires IsRun(acts) && Enabled(After(acts), Do(PublishTable))
    ensures var p := After(acts).proc.value; var d := After(acts).disk;
      && (forall t :: t in p.manifest.tables ==> t < p.pc.t)
      && d.tables[p.pc.t] == Finished(p.imms[|p.imms| - 1])
  {
    NumbersEverywhere(acts);
  }
}
