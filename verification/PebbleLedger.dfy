/** What every recovery shows, whatever came before it: the writes that tables hold and then, once more, those
    in the log. From that, exactly when nothing is lost and when the map is one that the database has stood
    for before. (projects/06-pebbledb/src/db.cpp) */
module PebbleLedger {
  import opened PebbleHistory
  import opened PebbleEngine
  import opened PebbleEngineProofs
  import opened PebbleGuarantees

  /** An account of a run. `base` is what the tables held when the current log was begun, `mem` the accepted
      writes since then; the first `listed` of them are in listed tables, and `frozen` says up to where the
      frozen MemTables go, oldest first. `log` is what a reader of the current log finds, `stranded` what
      is behind torn bytes in it. `exact` says that every recovery so far found in the log just what had
      been accepted. */
  datatype Ledger = Ledger(base: seq<Record>, mem: seq<Record>, listed: nat, frozen: seq<nat>,
                           log: seq<Record>, stranded: seq<Record>, torn: bool, exact: bool)

  const BLANK := Ledger([], [], 0, [], [], [], false, true)

  function Logs(l: Ledger, r: Record): Ledger {
    if l.torn then l.(stranded := l.stranded + [r]) else l.(log := l.log + [r])
  }

  /** The writes that the running database stands for. */
  function Served(l: Ledger): seq<Record> {
    l.base + l.mem
  }

  /** The writes in listed tables. */
  function Listed(l: Ledger): seq<Record>
    requires l.listed <= |l.mem|
  {
    l.base + l.mem[..l.listed]
  }

  /** What a recovery shows: the log is replayed on top of the tables. */
  function Recovered(l: Ledger): seq<Record>
    requires l.listed <= |l.mem|
  {
    Listed(l) + l.log
  }

  /** The account after a recovery. Listed writes that the log has too are not counted twice. */
  function Settled(l: Ledger): Ledger
    requires l.listed <= |l.mem|
  {
    if l.mem[..l.listed] <= l.log then l.(mem := l.log, frozen := [], exact := l.exact && l.mem == l.log)
    else l.(base := Listed(l), mem := l.log, listed := 0, frozen := [], exact := false)
  }

  function Entered(l: Ledger, a: Action): (l': Ledger)
    requires l.listed <= |l.mem| && forall i :: 0 <= i < |l.frozen| ==> l.frozen[i] <= |l.mem|
    ensures l'.listed <= |l'.mem| && forall i :: 0 <= i < |l'.frozen| ==> l'.frozen[i] <= |l'.mem|
  {
    match a
    case Do(LogAppend(r)) => Logs(l, r).(mem := l.mem + [r])
    case Do(LogUnsynced(r)) => Logs(l, r)
    case Do(LogTear(_)) => l.(torn := true)
    case Do(Freeze) => l.(frozen := l.frozen + [|l.mem|])
    case Do(PublishTable) => if l.frozen == [] then l else l.(listed := l.frozen[0], frozen := l.frozen[1..])
    case Do(Rotate) => Ledger(Served(l), [], 0, [], [], [], false, l.exact)
    case CutTail => l.(stranded := [], torn := false)
    case Boot => Settled(l)
    case Crash => l.(frozen := [])
    case _ => l
  }

  function Account(acts: seq<Action>): (l: Ledger)
    ensures l.listed <= |l.mem| && forall i :: 0 <= i < |l.frozen| ==> l.frozen[i] <= |l.mem|
  {
    if acts == [] then BLANK else Entered(Account(acts[..|acts| - 1]), acts[|acts| - 1])
  }

  lemma AccountStep(acts: seq<Action>, a: Action)
    ensures Account(acts + [a]) == Entered(Account(acts), a)
  {
    assert (acts + [a])[..|acts|] == acts;
  }

  // ----- the account is right -----

  /** The tables and the oldest `n` frozen MemTables. */
  function Stack(p: Proc, n: nat): seq<Layer>
    requires n <= |p.imms|
  {
    p.imms[|p.imms| - n..] + Reverse(p.tables)
  }

  /** The accepted writes that have reached the MemTable. */
  function InMemory(p: Proc, mem: seq<Record>): seq<Record> {
    if p.pending.Some? && mem != [] then mem[..|mem| - 1] else mem
  }

  ghost predicate MemoryMatches(p: Proc, l: Ledger) {
    && (p.pending.Some? ==> l.mem != [] && l.mem[|l.mem| - 1] == p.pending.value)
    && Agrees(Layers(p), l.base + InMemory(p, l.mem))
    && |l.frozen| == |p.imms|
    && forall n {:trigger Frozen(p, l, n)} :: 0 < n <= |p.imms| ==> Frozen(p, l, n)
  }

  ghost predicate Frozen(p: Proc, l: Ledger, n: nat) {
    && 0 < n <= |p.imms| && n <= |l.frozen| && l.frozen[n - 1] <= |InMemory(p, l.mem)|
    && Agrees(Stack(p, n), l.base + l.mem[..l.frozen[n - 1]])
  }

  ghost predicate DiskMatches(d: Disk, m: Manifest, l: Ledger) {
    && m.wal in d.wals && TablesReadable(d, m.tables) && l.listed <= |l.mem|
    && d.wals[m.wal].records == l.log && d.wals[m.wal].stranded == l.stranded && d.wals[m.wal].torn == l.torn
    && Agrees(Reverse(TableLayers(d, m.tables)), Listed(l))
  }

  ghost predicate Matches(w: World, l: Ledger) {
    match w.disk.manifest
    case None => l == BLANK && w.proc == None
    case Some(m) => DiskMatches(w.disk, m, l) && (if w.proc.Some? then MemoryMatches(w.proc.value, l) else l.frozen == [])
  }

  /** Replaying a log on top of layers is the history they agree with, and then the log. */
  lemma ReplayedOnTop(ls: seq<Layer>, h: seq<Record>, t: seq<Record>)
    requires Agrees(ls, h)
    ensures Agrees([Replay(t)] + ls, h + t)
  {
    assert ([Replay(t)] + ls)[1..] == ls && (h + t)[|h|..] == t && (h + t)[..|h|] == h;
    forall k ensures Lookup([Replay(t)] + ls, k) == Latest(h + t, k) {
      LatestBySuffix(h + t, |h|, k);
      assert Lookup(ls, k) == Latest(h, k);
    }
  }

  /** Writes that are replaced in what follows do not show. */
  lemma Overwritten(h: seq<Record>, x: seq<Record>, t: seq<Record>)
    requires x <= t
    ensures forall k :: Latest(h + x + t, k) == Latest(h + t, k)
  {
    forall k ensures Latest(h + x + t, k) == Latest(h + t, k) {
      assert (h + x + t)[|h + x|..] == t && (h + x + t)[..|h + x|] == h + x;
      assert (h + t)[|h|..] == t && (h + t)[..|h|] == h && (h + x)[|h|..] == x && (h + x)[..|h|] == h;
      LatestBySuffix(h + x + t, |h + x|, k);
      LatestBySuffix(h + t, |h|, k);
      LatestBySuffix(h + x, |h|, k);
      if k in Replay(x) {
        assert x == t[..|x|];
        PrefixMentions(t, |x|, k);
      }
    }
  }

  lemma {:induction false} PrefixMentions(t: seq<Record>, n: nat, k: Key)
    requires n <= |t| && k in Replay(t[..n])
    ensures k in Replay(t)
    decreases |t|
  {
    if n < |t| {
      assert t[..|t| - 1][..n] == t[..n];
      PrefixMentions(t[..|t| - 1], n, k);
    } else {
      assert t[..n] == t;
    }
  }

  lemma MatchesStep(w: World, l: Ledger, a: Action)
    requires Numbers(w) && Matches(w, l) && Enabled(w, a)
    requires l.listed <= |l.mem| && forall i :: 0 <= i < |l.frozen| ==> l.frozen[i] <= |l.mem|
    ensures Matches(Effect(w, a), Entered(l, a))
  {
    match a
    case FreshManifest => FreshMatches(w, l);
    case CutTail => CutMatches(w, l);
    case Boot => BootMatches(w, l);
    case Do(s) => StepMatches(w, l, s);
    case _ =>
  }

  lemma FreshMatches(w: World, l: Ledger)
    requires Numbers(w) && Matches(w, l) && Enabled(w, FreshManifest)
    ensures Matches(Effect(w, FreshManifest), l)
  {
    assert TableLayers(w.disk, []) == [] && w.disk.wals[1] == EMPTY_WAL;
  }

  lemma CutMatches(w: World, l: Ledger)
    requires Numbers(w) && Matches(w, l) && Enabled(w, CutTail)
    requires l.listed <= |l.mem| && forall i :: 0 <= i < |l.frozen| ==> l.frozen[i] <= |l.mem|
    ensures Matches(Effect(w, CutTail), Entered(l, CutTail))
  {
    var m := w.disk.manifest.value;
    assert TableLayers(Effect(w, CutTail).disk, m.tables) == TableLayers(w.disk, m.tables);
  }

  /** Recovery counts no listed write twice, and shows the same. */
  lemma SettledShowsTheSame(l: Ledger)
    requires l.listed <= |l.mem|
    ensures forall k :: Latest(Served(Settled(l)), k) == Latest(Recovered(l), k)
    ensures forall k :: Latest(Listed(Settled(l)), k) == Latest(Listed(l), k)
  {
    if l.mem[..l.listed] <= l.log {
      Overwritten(l.base, l.mem[..l.listed], l.log);
      assert l.log[..l.listed] == l.mem[..l.listed];
    } else {
      assert l.log[..0] == [] && Listed(l) + [] == Listed(l);
    }
  }

  lemma BootMatches(w: World, l: Ledger)
    requires Numbers(w) && Matches(w, l) && Enabled(w, Boot) && l.listed <= |l.mem|
    ensures Matches(Effect(w, Boot), Settled(l))
  {
    SettledShowsTheSame(l);
    BootAgrees(w.disk, w.disk.manifest.value, l);
  }

  lemma BootAgrees(d: Disk, m: Manifest, l: Ledger)
    requires d.manifest == Some(m) && DiskMatches(d, m, l)
    ensures Agrees(Layers(Booted(d)), Recovered(l))
  {
    var p := Booted(d);
    ReplayedOnTop(Reverse(p.tables), Listed(l), l.log);
    assert Layers(p) == [Replay(l.log)] + Reverse(p.tables);
  }

  lemma StepMatches(w: World, l: Ledger, s: Step)
    requires Numbers(w) && Matches(w, l) && Enabled(w, Do(s))
    requires l.listed <= |l.mem| && forall i :: 0 <= i < |l.frozen| ==> l.frozen[i] <= |l.mem|
    ensures Matches(Effect(w, Do(s)), Entered(l, Do(s)))
  {
    match s
    case LogAppend(r) => LogAppendMatches(w, l, r);
    case LogTear(n) => LogTearMatches(w, l, n);
    case LogUnsynced(r) => LogUnsyncedMatches(w, l, r);
    case Absorb(missed) => AbsorbMatches(w, l, missed);
    case Freeze => FreezeMatches(w, l);
    case PublishTable => PublishMatches(w, l);
    case Rotate => RotateMatches(w, l);
    case _ => ElsewhereMatches(w, l, s);
  }

  lemma LogAppendMatches(w: World, l: Ledger, r: Record)
    requires Numbers(w) && Matches(w, l) && Enabled(w, Do(LogAppend(r)))
    requires l.listed <= |l.mem| && forall i :: 0 <= i < |l.frozen| ==> l.frozen[i] <= |l.mem|
    ensures Matches(Effect(w, Do(LogAppend(r))), Entered(l, Do(LogAppend(r))))
  {
    var w', l' := Effect(w, Do(LogAppend(r))), Entered(l, Do(LogAppend(r)));
    DiskLater(w.disk, w'.disk, w.disk.manifest.value, l, l');
    MemoryLater(w.proc.value, w'.proc.value, l, l');
  }

  lemma LogTearMatches(w: World, l: Ledger, n: nat)
    requires Numbers(w) && Matches(w, l) && Enabled(w, Do(LogTear(n)))
    requires l.listed <= |l.mem| && forall i :: 0 <= i < |l.frozen| ==> l.frozen[i] <= |l.mem|
    ensures Matches(Effect(w, Do(LogTear(n))), Entered(l, Do(LogTear(n))))
  {
    var w', l' := Effect(w, Do(LogTear(n))), Entered(l, Do(LogTear(n)));
    DiskLater(w.disk, w'.disk, w.disk.manifest.value, l, l');
    MemoryLater(w.proc.value, w'.proc.value, l, l');
  }

  lemma LogUnsyncedMatches(w: World, l: Ledger, r: Record)
    requires Numbers(w) && Matches(w, l) && Enabled(w, Do(LogUnsynced(r)))
    requires l.listed <= |l.mem| && forall i :: 0 <= i < |l.frozen| ==> l.frozen[i] <= |l.mem|
    ensures Matches(Effect(w, Do(LogUnsynced(r))), Entered(l, Do(LogUnsynced(r))))
  {
    var w', l' := Effect(w, Do(LogUnsynced(r))), Entered(l, Do(LogUnsynced(r)));
    DiskLater(w.disk, w'.disk, w.disk.manifest.value, l, l');
    MemoryLater(w.proc.value, w'.proc.value, l, l');
  }

  /** A longer log is nothing to the tables. */
  lemma DiskLater(d: Disk, d': Disk, m: Manifest, l: Ledger, l': Ledger)
    requires DiskMatches(d, m, l) && d'.tables == d.tables && m.wal in d'.wals
    requires l'.base == l.base && l'.listed == l.listed && l.mem <= l'.mem
    requires var f := d'.wals[m.wal]; f.records == l'.log && f.stranded == l'.stranded && f.torn == l'.torn
    ensures DiskMatches(d', m, l')
  {
    assert TableLayers(d', m.tables) == TableLayers(d, m.tables) && Listed(l') == Listed(l);
  }

  /** A longer log, and perhaps a write in flight, are nothing to the layers. */
  lemma MemoryLater(p: Proc, p': Proc, l: Ledger, l': Ledger)
    requires MemoryMatches(p, l) && p'.active == p.active && p'.imms == p.imms && p'.tables == p.tables
    requires l'.base == l.base && l'.frozen == l.frozen && l.mem <= l'.mem && InMemory(p', l'.mem) == InMemory(p, l.mem)
    requires p'.pending.Some? ==> l'.mem != [] && l'.mem[|l'.mem| - 1] == p'.pending.value
    ensures MemoryMatches(p', l')
  {
    assert Layers(p') == Layers(p);
    forall n | 0 < n <= |p'.imms| ensures Frozen(p', l', n) {
      assert Frozen(p, l, n) && Stack(p', n) == Stack(p, n) && l'.mem[..l.frozen[n - 1]] == l.mem[..l.frozen[n - 1]];
    }
  }

  lemma AbsorbMatches(w: World, l: Ledger, missed: bool)
    requires Numbers(w) && Matches(w, l) && Enabled(w, Do(Absorb(missed)))
    requires l.listed <= |l.mem| && forall i :: 0 <= i < |l.frozen| ==> l.frozen[i] <= |l.mem|
    ensures Matches(Effect(w, Do(Absorb(missed))), l)
  {
    var p, p' := w.proc.value, Effect(w, Do(Absorb(missed))).proc.value;
    var r := p.pending.value;
    AbsorbedLookups(p, Live(Lookup(Layers(p), r.key)), missed, l.base + InMemory(p, l.mem));
    assert l.base + InMemory(p, l.mem) + [r] == l.base + l.mem;
    forall n | 0 < n <= |p'.imms| ensures Frozen(p', l, n) {
      assert Frozen(p, l, n) && Stack(p', n) == Stack(p, n);
    }
  }

  lemma FreezeMatches(w: World, l: Ledger)
    requires Numbers(w) && Matches(w, l) && Enabled(w, Do(Freeze))
    requires l.listed <= |l.mem| && forall i :: 0 <= i < |l.frozen| ==> l.frozen[i] <= |l.mem|
    ensures Matches(Effect(w, Do(Freeze)), Entered(l, Do(Freeze)))
  {
    FreezeMemory(w.proc.value, l);
  }

  lemma FreezeMemory(p: Proc, l: Ledger)
    requires MemoryMatches(p, l) && p.pending == None
    ensures MemoryMatches(p.(active := map[], imms := [p.active] + p.imms), l.(frozen := l.frozen + [|l.mem|]))
  {
    var p', l' := p.(active := map[], imms := [p.active] + p.imms), l.(frozen := l.frozen + [|l.mem|]);
    FreezeKeepsLookups(p);
    assert Stack(p', |p'.imms|) == Layers(p) && l.mem[..|l.mem|] == l.mem;
    forall n | 0 < n <= |p'.imms| ensures Frozen(p', l', n) {
      if n <= |p.imms| {
        assert Frozen(p, l, n) && Stack(p', n) == Stack(p, n);
      }
    }
  }

  lemma PublishedStack(p: Proc, p': Proc, n: nat)
    requires p.imms != [] && p'.imms == p.imms[..|p.imms| - 1] && p'.tables == p.tables + [p.imms[|p.imms| - 1]] && n < |p.imms|
    ensures Stack(p', n) == Stack(p, n + 1)
  {
    ReverseAppend(p.tables, p.imms[|p.imms| - 1]);
  }

  lemma PublishMatches(w: World, l: Ledger)
    requires Numbers(w) && Matches(w, l) && Enabled(w, Do(PublishTable))
    requires l.listed <= |l.mem| && forall i :: 0 <= i < |l.frozen| ==> l.frozen[i] <= |l.mem|
    ensures Matches(Effect(w, Do(PublishTable)), Entered(l, Do(PublishTable)))
  {
    var w', l' := Effect(w, Do(PublishTable)), Entered(l, Do(PublishTable));
    var p, p' := w.proc.value, w'.proc.value;
    NumbersKept(w, Do(PublishTable));
    PublishKeepsLayers(w.disk, p);
    assert Frozen(p, l, 1);
    PublishedStack(p, p', 0);
    assert Stack(p', 0) == Reverse(p'.tables);
    forall n | 0 < n <= |p'.imms| ensures Frozen(p', l', n) {
      assert Frozen(p, l, n + 1);
      PublishedStack(p, p', n);
    }
  }

  lemma EmptyOnTop(ls: seq<Layer>, h: seq<Record>)
    requires Agrees([map[]] + ls, h)
    ensures Agrees(ls, h)
  {
    assert ([map[]] + ls)[1..] == ls;
    forall k ensures Lookup(ls, k) == Latest(h, k) { assert Lookup([map[]] + ls, k) == Latest(h, k); }
  }

  lemma RotateMatches(w: World, l: Ledger)
    requires Numbers(w) && Matches(w, l) && Enabled(w, Do(Rotate))
    ensures Matches(Effect(w, Do(Rotate)), Ledger(Served(l), [], 0, [], [], [], false, l.exact))
  {
    var w', p := Effect(w, Do(Rotate)), w.proc.value;
    NumbersKept(w, Do(Rotate));
    assert Layers(p) == [map[]] + Reverse(p.tables) && Layers(w'.proc.value) == Layers(p);
    assert Served(l) + [] == Served(l);
    EmptyOnTop(Reverse(p.tables), Served(l));
    assert w'.disk.wals[p.pc.n] == EMPTY_WAL;
  }

  lemma ElsewhereMatches(w: World, l: Ledger, s: Step)
    requires Numbers(w) && Matches(w, l) && Enabled(w, Do(s))
    requires s.NewTable? || s.WriteTable? || s.NewWal? || s.DropWal? || s.GiveUp?
    ensures Matches(Effect(w, Do(s)), l)
  {
    var w' := Effect(w, Do(s));
    var p, p', m := w.proc.value, w'.proc.value, w.disk.manifest.value;
    NumbersKept(w, Do(s));
    assert TableLayers(w'.disk, m.tables) == TableLayers(w.disk, m.tables);
    MemoryLater(p, p', l, l);
  }

  /** In every run, the account agrees with the disk and with memory. */
  lemma {:induction false} AccountIsRight(acts: seq<Action>)
    requires IsRun(acts)
    ensures Matches(After(acts), Account(acts))
  {
    if acts != [] {
      var before := acts[..|acts| - 1];
      AccountIsRight(before);
      NumbersEverywhere(before);
      MatchesStep(After(before), Account(before), acts[|acts| - 1]);
    }
  }

  // ----- what is shown -----

  function At(m: map<Key, Bytes>, k: Key): Option<Bytes> {
    if k in m then Some(m[k]) else None
  }

  lemma SameLatestSameFold(h: seq<Record>, t: seq<Record>)
    requires forall k :: Latest(h, k) == Latest(t, k)
    ensures Fold(h) == Fold(t)
  {
    forall k ensures At(Fold(h), k) == At(Fold(t), k) {
      FoldIsLatest(h, k);
      FoldIsLatest(t, k);
    }
    SameMap(Fold(h), Fold(t));
  }

  lemma SameMap(a: map<Key, Bytes>, b: map<Key, Bytes>)
    requires forall k :: At(a, k) == At(b, k)
    ensures a == b
  {
    forall k ensures k in a <==> k in b { assert At(a, k) == At(b, k); }
    forall k | k in a ensures a[k] == b[k] { assert At(a, k) == At(b, k); }
  }

  /** A running process, after any run whatever, shows the writes of the account, except one in flight. */
  lemma ServesTheAccount(acts: seq<Action>)
    requires IsRun(acts) && After(acts).proc.Some?
    ensures var p, l := After(acts).proc.value, Account(acts); View(Layers(p)) == Fold(l.base + InMemory(p, l.mem))
  {
    AccountIsRight(acts);
    NumbersEverywhere(acts);
    var p, l := After(acts).proc.value, Account(acts);
    AgreeingLayersShowTheFold(Layers(p), l.base + InMemory(p, l.mem));
  }

  /** A recovery, after any run whatever, shows the writes in listed tables and then those in the log. */
  lemma RecoveryShows(acts: seq<Action>)
    requires IsRun(acts + [Boot])
    ensures View(Layers(After(acts + [Boot]).proc.value)) == Fold(Recovered(Account(acts)))
  {
    Shorten(acts, Boot);
    Extend(acts, Boot);
    AccountStep(acts, Boot);
    ServesTheAccount(acts + [Boot]);
    SettledShowsTheSame(Account(acts));
    SameLatestSameFold(Served(Settled(Account(acts))), Recovered(Account(acts)));
  }

  /** The process comes up. */
  lemma ComingUp(acts: seq<Action>)
    requires IsRun(acts) && After(acts).proc == None && Bootable(After(acts).disk)
    ensures var w := After(acts); var all := acts + [Boot];
      && IsRun(all) && After(all) == World(w.disk, Some(Booted(w.disk)), w.hist, w.whole, w.sound) && Accepted(all) == Accepted(acts)
      && View(Layers(Booted(w.disk))) == Fold(Recovered(Account(acts)))
  {
    Booting(acts);
    RecoveryShows(acts);
  }

  /** Key by key: the log decides the keys it mentions, and the tables the rest. */
  lemma RecoveredAt(l: Ledger, k: Key)
    requires l.listed <= |l.mem|
    ensures At(Fold(Recovered(l)), k) == At(Fold(if k in Replay(l.log) then l.log else Listed(l)), k)
  {
    var h, n := Recovered(l), |Listed(l)|;
    assert h[n..] == l.log && h[..n] == Listed(l);
    LatestBySuffix(h, n, k);
    FoldIsLatest(h, k);
    FoldIsLatest(l.log, k);
    FoldIsLatest(Listed(l), k);
  }

  /** The first n writes leave the keys in the log as the log does, and all others as the tables do. */
  ghost predicate Snapshot(l: Ledger, n: nat)
    requires l.listed <= |l.mem| && n <= |Served(l)|
  {
    forall k :: At(Fold(Served(l)[..n]), k) == At(Fold(if k in Replay(l.log) then l.log else Listed(l)), k)
  }

  /** Exactly when a recovery shows the map of the first n writes. */
  lemma ShowsPrefixIff(l: Ledger, n: nat)
    requires l.listed <= |l.mem| && n <= |Served(l)|
    ensures Fold(Recovered(l)) == Fold(Served(l)[..n]) <==> Snapshot(l, n)
  {
    forall k ensures At(Fold(Recovered(l)), k) == At(Fold(if k in Replay(l.log) then l.log else Listed(l)), k) { RecoveredAt(l, k); }
    if Snapshot(l, n) {
      forall k ensures At(Fold(Recovered(l)), k) == At(Fold(Served(l)[..n]), k) { RecoveredAt(l, k); }
      SameMap(Fold(Recovered(l)), Fold(Served(l)[..n]));
    }
  }

  /** The same of a run: exactly when the recovery shows the map of the first n writes it could have shown. */
  lemma RecoveryShowsPrefixIff(acts: seq<Action>, n: nat)
    requires IsRun(acts + [Boot]) && n <= |Served(Account(acts))|
    ensures View(Layers(After(acts + [Boot]).proc.value)) == Fold(Served(Account(acts))[..n]) <==> Snapshot(Account(acts), n)
  {
    RecoveryShows(acts);
    ShowsPrefixIff(Account(acts), n);
  }

  /** Exactly when it shows a map that the database has stood for before. */
  lemma RecoveryShowsAPrefixIff(acts: seq<Action>)
    requires IsRun(acts + [Boot])
    ensures var l := Account(acts); var view := View(Layers(After(acts + [Boot]).proc.value));
      (exists n {:trigger Served(l)[..n]} :: 0 <= n <= |Served(l)| && view == Fold(Served(l)[..n])) <==> (exists n: nat :: n <= |Served(l)| && Snapshot(l, n))
  {
    forall n: nat | n <= |Served(Account(acts))|
      ensures View(Layers(After(acts + [Boot]).proc.value)) == Fold(Served(Account(acts))[..n]) <==> Snapshot(Account(acts), n) {
      RecoveryShowsPrefixIff(acts, n);
    }
  }

  /** Exactly when all the writes in tables show: when none of them has given a key in the log another value. */
  lemma ListedWritesShowIff(acts: seq<Action>)
    requires IsRun(acts + [Boot])
    ensures var l := Account(acts);
      View(Layers(After(acts + [Boot]).proc.value)) == Fold(Listed(l)) <==> forall k :: k in Replay(l.log) ==> At(Fold(Listed(l)), k) == At(Fold(l.log), k)
  {
    var l := Account(acts);
    var n := |Listed(l)|;
    assert Served(l)[..n] == Listed(l);
    RecoveryShowsPrefixIff(acts, n);
    if forall k :: k in Replay(l.log) ==> At(Fold(Listed(l)), k) == At(Fold(l.log), k) {
      assert Snapshot(l, n);
    } else {
      var k :| k in Replay(l.log) && At(Fold(Listed(l)), k) != At(Fold(l.log), k);
      var shown := At(Fold(Served(l)[..n]), k);
      assert shown == At(Fold(Listed(l)), k);
    }
  }

  lemma OnTopAt(h: seq<Record>, t: seq<Record>, k: Key)
    ensures At(Fold(h + t), k) == At(Fold(if k in Replay(t) then t else h), k)
  {
    assert (h + t)[|h|..] == t && (h + t)[..|h|] == h;
    LatestBySuffix(h + t, |h|, k);
    FoldIsLatest(h + t, k);
    FoldIsLatest(h, k);
    FoldIsLatest(t, k);
  }

  /** The two stand for the same map but for keys in the log `t`. */
  ghost predicate SameBut(h: seq<Record>, b: seq<Record>, t: seq<Record>) {
    forall k :: k !in Replay(t) ==> At(Fold(h), k) == At(Fold(b), k)
  }

  lemma BelowLogIff(h: seq<Record>, b: seq<Record>, t: seq<Record>)
    ensures Fold(h + t) == Fold(b + t) <==> SameBut(h, b, t)
  {
    if Fold(h + t) == Fold(b + t) {
      forall k | k !in Replay(t) ensures At(Fold(h), k) == At(Fold(b), k) { OnTopAt(h, t, k); OnTopAt(b, t, k); }
    }
    if SameBut(h, b, t) {
      forall k ensures At(Fold(h + t), k) == At(Fold(b + t), k) { OnTopAt(h, t, k); OnTopAt(b, t, k); }
      SameMap(Fold(h + t), Fold(b + t));
    }
  }

  /** Exactly when only the log's own writes show: when the writes in tables have changed no other key. */
  lemma LogAloneShowsIff(acts: seq<Action>)
    requires IsRun(acts + [Boot])
    ensures var l := Account(acts);
      View(Layers(After(acts + [Boot]).proc.value)) == Fold(l.base + l.log) <==> SameBut(Listed(l), l.base, l.log)
  {
    RecoveryShows(acts);
    var l := Account(acts);
    BelowLogIff(Listed(l), l.base, l.log);
  }

  /** Exactly when nothing is lost: when every key in the log, or else in the tables, has its latest value there. */
  lemma NothingIsLostIff(acts: seq<Action>)
    requires IsRun(acts + [Boot])
    ensures var l := Account(acts);
      View(Layers(After(acts + [Boot]).proc.value)) == Fold(Served(l)) <==> Snapshot(l, |Served(l)|)
  {
    var l := Account(acts);
    assert Served(l)[..|Served(l)|] == Served(l);
    RecoveryShowsPrefixIff(acts, |Served(l)|);
  }

  /** As long as no stranded write is in a table, recovery shows what was in the tables when the log was begun
      and the writes that the log still has, in order. */
  lemma RecoveryYieldsSurvivors(acts: seq<Action>)
    requires IsRun(acts + [Boot]) && var l := Account(acts); l.mem[..l.listed] <= l.log
    ensures View(Layers(After(acts + [Boot]).proc.value)) == Fold(Account(acts).base + Account(acts).log)
  {
    RecoveryShows(acts);
    var l := Account(acts);
    Overwritten(l.base, l.mem[..l.listed], l.log);
    SameLatestSameFold(Recovered(l), l.base + l.log);
  }

  /** The account is of the accepted writes until a recovery finds something else in the log. */
  lemma {:induction false} ExactIsAccepted(acts: seq<Action>)
    requires Account(acts).exact
    ensures Served(Account(acts)) == Accepted(acts)
  {
    if acts != [] {
      var before := acts[..|acts| - 1];
      ExactStep(Account(before), acts[|acts| - 1]);
      ExactIsAccepted(before);
    }
  }

  lemma ExactStep(l: Ledger, a: Action)
    requires l.listed <= |l.mem| && forall i :: 0 <= i < |l.frozen| ==> l.frozen[i] <= |l.mem|
    requires Entered(l, a).exact
    ensures l.exact && Served(Entered(l, a)) == Served(l) + match a case Do(LogAppend(r)) => [r] case _ => []
  {
  }

  // ----- refused writes -----

  /** The run ends with a database that shows the map of `h`. */
  ghost predicate Shows(acts: seq<Action>, h: seq<Record>) {
    IsRun(acts) && After(acts).proc.Some? && View(Layers(After(acts).proc.value)) == Fold(h)
  }

  lemma BootShows(acts: seq<Action>, h: seq<Record>)
    requires IsRun(acts + [Boot]) && Recovered(Account(acts)) == h
    ensures Shows(acts + [Boot], h)
  {
    RecoveryShows(acts);
    Shorten(acts, Boot);
    Extend(acts, Boot);
  }

  lemma ReopeningShows(acts: seq<Action>)
    requires IsRun(acts) && After(acts).disk.manifest.Some? && !LogJammed(After(acts))
    ensures After(acts).disk.manifest.value.wal in After(acts).disk.wals
    ensures Shows(acts + CrashAndReopen(After(acts)), Recovered(Account(acts)))
  {
    ReopenIsPossible(acts);
    if Tail(After(acts)).torn {
      OneByOne(acts, [Crash], [CutTail], [Boot]);
      TornReopeningShows(acts);
    } else {
      OneByOne(acts, [Crash], [], [Boot]);
      IntactReopeningShows(acts);
    }
  }

  lemma TornReopeningShows(acts: seq<Action>)
    requires IsRun(acts + [Crash] + [CutTail] + [Boot])
    ensures Shows(acts + [Crash] + [CutTail] + [Boot], Recovered(Account(acts)))
  {
    AccountStep(acts, Crash);
    AccountStep(acts + [Crash], CutTail);
    BootShows(acts + [Crash] + [CutTail], Recovered(Account(acts)));
  }

  lemma IntactReopeningShows(acts: seq<Action>)
    requires IsRun(acts + [Crash] + [Boot])
    ensures Shows(acts + [Crash] + [Boot], Recovered(Account(acts)))
  {
    AccountStep(acts, Crash);
    BootShows(acts + [Crash], Recovered(Account(acts)));
  }

  /** A write that was refused because its sync failed shows after a crash exactly as an accepted one would: if
      the log was intact, it is the last write that recovery shows, and if not, it is cut away. */
  lemma RefusedWriteAfterCrash(acts: seq<Action>, r: Record)
    requires IsRun(acts) && Enabled(After(acts), Do(LogUnsynced(r)))
    ensures var refused := acts + [Do(LogUnsynced(r))];
      && IsRun(refused) && Accepted(refused) == Accepted(acts) && After(refused).proc == After(acts).proc
      && After(refused).disk.manifest.Some? && After(refused).disk.manifest.value.wal in After(refused).disk.wals
      && var l := Account(acts); var all := refused + CrashAndReopen(After(refused));
      && (!l.torn ==> Shows(all, Recovered(l) + [r]))
      && (l.torn && !LogJammed(After(refused)) ==> Shows(all, Recovered(l)))
  {
    var refused, l := acts + [Do(LogUnsynced(r))], Account(acts);
    Refused(acts, r);
    if !LogJammed(After(refused)) { ReopeningShows(refused); }
    if !l.torn {
      assert Recovered(Account(refused)) == Recovered(l) + [r];
    }
  }

  /** What a refused write may leave in the log: nothing, a part of it, or all of it. */
  ghost predicate Refusal(acts: seq<Action>, after: seq<Action>, r: Record) {
    after == acts || after == acts + [Do(LogUnsynced(r))] || exists n :: after == acts + [Do(LogTear(n))]
  }

  lemma Refused(acts: seq<Action>, r: Record)
    requires IsRun(acts) && Enabled(After(acts), Do(LogUnsynced(r)))
    ensures var refused := acts + [Do(LogUnsynced(r))];
      && IsRun(refused) && Accepted(refused) == Accepted(acts) && After(refused).proc == After(acts).proc
      && After(refused).disk.manifest.Some? && After(refused).disk.manifest.value.wal in After(refused).disk.wals
      && Account(refused) == Logs(Account(acts), r) && (!Account(acts).torn ==> !LogJammed(After(refused)))
  {
    NumbersEverywhere(acts);
    AccountIsRight(acts);
    Refusing(acts, r);
    AccountStep(acts, Do(LogUnsynced(r)));
  }

  /** The sequence number of a refused write is used again: both records can be in the log. */
  lemma RefusedNumberIsReused(acts: seq<Action>, r: Record, q: Record)
    requires IsRun(acts) && Enabled(After(acts), Do(LogUnsynced(r))) && q.seqno == r.seqno
    ensures var both := acts + [Do(LogUnsynced(r))] + [Do(LogAppend(q))];
      IsRun(both) && (!Account(acts).torn ==> Account(both).log == Account(acts).log + [r] + [q])
  {
    var refused := acts + [Do(LogUnsynced(r))];
    Refusing(acts, r);
    Refused(acts, r);
    Appending(refused, q);
    AccountStep(refused, Do(LogAppend(q)));
  }
}
