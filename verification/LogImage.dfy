/** The redo log as a disk image sees it: the header block, the log slots, the home blocks, and the
    sequence of disk writes that a commit and a recovery perform. Cutting either after any write, any
    number of times, never tears a transaction. (projects/07-xv6plus/kernel/log.c) */
module LogImage {

  const WORDS := 256                // a block of 1024 bytes, as 32-bit words
  const MAXOPBLOCKS := 10
  const LOGBLOCKS := MAXOPBLOCKS * 3

  type Word = w: int | 0 <= w < 0x1_0000_0000
  type Data = d: seq<Word> | |d| == WORDS witness seq(WORDS, _ => 0)
  type Image = seq<Data>

  datatype Write = Write(block: nat, data: Data)

  // ----- layout -----

  /** A block outside the log: header at `start`, slots right behind it. */
  predicate Home(start: nat, b: nat) {
    b < start || b > start + LOGBLOCKS
  }

  predicate HasLog(img: Image, start: nat) {
    start + LOGBLOCKS < |img|
  }

  function HeadCount(d: Data): Word {
    d[0]
  }

  /** The block numbers a header block lists. */
  function Head(d: Data): (lh: seq<Word>)
    requires HeadCount(d) <= LOGBLOCKS
    ensures |lh| == HeadCount(d)
  {
    d[1..1 + HeadCount(d)]
  }

  /** write_head overwrites the count and the listed entries and leaves the rest of the block alone. */
  function WithHead(d: Data, lh: seq<Word>): (r: Data)
    requires |lh| <= LOGBLOCKS
    ensures HeadCount(r) == |lh| && Head(r) == lh
  {
    [|lh|] + lh + d[1 + |lh|..]
  }

  predicate Distinct(lh: seq<Word>) {
    forall i, j :: 0 <= i < j < |lh| ==> lh[i] != lh[j]
  }

  /** A list of home blocks that a header may hold. */
  predicate Loggable(size: nat, start: nat, lh: seq<Word>) {
    && |lh| <= LOGBLOCKS && Distinct(lh)
    && forall i :: 0 <= i < |lh| ==> lh[i] < size && Home(start, lh[i])
  }

  predicate Recoverable(img: Image, start: nat) {
    HasLog(img, start) && HeadCount(img[start]) <= LOGBLOCKS && Loggable(|img|, start, Head(img[start]))
  }

  predicate Clear(img: Image, start: nat) {
    HasLog(img, start) && HeadCount(img[start]) == 0
  }

  // ----- disk writes -----

  predicate InRange(size: nat, ws: seq<Write>) {
    forall i :: 0 <= i < |ws| ==> ws[i].block < size
  }

  function Apply(img: Image, ws: seq<Write>): (r: Image)
    requires InRange(|img|, ws)
    ensures |r| == |img|
  {
    if ws == [] then img
    else
      var w := ws[|ws| - 1];
      Apply(img, ws[..|ws| - 1])[w.block := w.data]
  }

  /** write_log: slot i takes the i-th block's new content. */
  function SlotWrites(start: nat, datas: seq<Data>): (ws: seq<Write>)
    ensures |ws| == |datas|
    ensures forall i :: 0 <= i < |ws| ==> ws[i] == Write(start + 1 + i, datas[i])
  {
    seq(|datas|, i requires 0 <= i < |datas| => Write(start + 1 + i, datas[i]))
  }

  /** install_trans: the i-th listed block takes the content of slot i. */
  function InstallWrites(lh: seq<Word>, datas: seq<Data>): (ws: seq<Write>)
    requires |datas| == |lh|
    ensures |ws| == |lh|
    ensures forall i :: 0 <= i < |ws| ==> ws[i] == Write(lh[i], datas[i])
  {
    seq(|lh|, i requires 0 <= i < |lh| => Write(lh[i], datas[i]))
  }

  function Slots(img: Image, start: nat, n: nat): (datas: seq<Data>)
    requires HasLog(img, start) && n <= LOGBLOCKS
    ensures |datas| == n
  {
    img[start + 1..start + 1 + n]
  }

  /** A transaction: the blocks the header lists and their new contents. */
  datatype Txn = Txn(lh: seq<Word>, datas: seq<Data>)

  predicate Committable(size: nat, start: nat, t: Txn) {
    Loggable(size, start, t.lh) && |t.datas| == |t.lh|
  }

  /** The slots, then the header. */
  function FirstWrites(head: Data, start: nat, t: Txn): (ws: seq<Write>)
    requires |t.lh| == |t.datas| <= LOGBLOCKS
    ensures |ws| == |t.lh| + 1
  {
    SlotWrites(start, t.datas) + [Write(start, WithHead(head, t.lh))]
  }

  /** The homes, then the header, cleared. */
  function LastWrites(head: Data, start: nat, t: Txn): (ws: seq<Write>)
    requires |t.lh| == |t.datas|
    ensures |ws| == |t.lh| + 1
  {
    InstallWrites(t.lh, t.datas) + [Write(start, WithHead(head, []))]
  }

  /** commit; it writes nothing for an empty transaction. */
  function CommitWrites(head: Data, start: nat, t: Txn): (ws: seq<Write>)
    requires |t.lh| == |t.datas| <= LOGBLOCKS
    ensures |ws| == if t.lh == [] then 0 else 2 * |t.lh| + 2
  {
    if t.lh == [] then [] else FirstWrites(head, start, t) + LastWrites(WithHead(head, t.lh), start, t)
  }

  function Logged(img: Image, start: nat): (t: Txn)
    requires Recoverable(img, start)
    ensures Committable(|img|, start, t)
  {
    Txn(Head(img[start]), Slots(img, start, HeadCount(img[start])))
  }

  /** recover_from_log: install what the header lists, then clear the header. */
  function RecoveryWrites(img: Image, start: nat): (ws: seq<Write>)
    requires Recoverable(img, start)
    ensures |ws| == HeadCount(img[start]) + 1 && InRange(|img|, ws)
  {
    LastWrites(img[start], start, Logged(img, start))
  }

  /** The reference: the image whose home blocks the transaction has overwritten, all at once. */
  function Overwrite(img: Image, t: Txn): (r: Image)
    requires |t.datas| == |t.lh| && forall i :: 0 <= i < |t.lh| ==> t.lh[i] < |img|
    ensures |r| == |img|
    decreases |t.lh|
  {
    if t.lh == [] then img
    else
      var n := |t.lh| - 1;
      Overwrite(img, Txn(t.lh[..n], t.datas[..n]))[t.lh[n] := t.datas[n]]
  }

  predicate SameHomes(a: Image, b: Image, start: nat) {
    |a| == |b| && forall h :: 0 <= h < |a| && Home(start, h) ==> a[h] == b[h]
  }

  function Slot(img: Image, start: nat, i: nat): Data
    requires HasLog(img, start) && i < LOGBLOCKS
  {
    img[start + 1 + i]
  }

  /** With `lh` in the header, `m` is what the home blocks stand for: a listed block stands for its
      slot, any other for itself. */
  predicate Shows(img: Image, start: nat, lh: seq<Word>, m: Image) {
    && HasLog(img, start) && |m| == |img| && Loggable(|img|, start, lh)
    && (forall i :: 0 <= i < |lh| ==> m[lh[i]] == Slot(img, start, i))
    && (forall h :: 0 <= h < |img| && Home(start, h) && h !in lh ==> m[h] == img[h])
  }

  predicate Means(img: Image, start: nat, m: Image) {
    Recoverable(img, start) && Shows(img, start, Head(img[start]), m)
  }

  // ----- applying writes -----

  lemma ApplyOne(img: Image, ws: seq<Write>, w: Write)
    requires InRange(|img|, ws) && w.block < |img|
    ensures InRange(|img|, ws + [w]) && Apply(img, ws + [w]) == Apply(img, ws)[w.block := w.data]
  {
    assert (ws + [w])[..|ws|] == ws;
  }

  lemma {:induction false} ApplyConcat(img: Image, a: seq<Write>, b: seq<Write>)
    requires InRange(|img|, a) && InRange(|img|, b)
    ensures InRange(|img|, a + b) && Apply(img, a + b) == Apply(Apply(img, a), b)
    decreases |b|
  {
    if b == [] {
      assert a + b == a;
    } else {
      ApplyConcat(img, a, b[..|b| - 1]);
      assert (a + b)[..|a + b| - 1] == a + b[..|b| - 1];
    }
  }

  /** A block none of the writes names keeps its content. */
  lemma {:induction false} ApplyElsewhere(img: Image, ws: seq<Write>, b: nat)
    requires InRange(|img|, ws) && b < |img| && forall i :: 0 <= i < |ws| ==> ws[i].block != b
    ensures Apply(img, ws)[b] == img[b]
  {
    if ws != [] {
      ApplyElsewhere(img, ws[..|ws| - 1], b);
    }
  }

  /** A block that one write names, and no later one, has that write's content. */
  lemma {:induction false} ApplyAt(img: Image, ws: seq<Write>, i: nat)
    requires InRange(|img|, ws) && i < |ws| && forall j :: i < j < |ws| ==> ws[j].block != ws[i].block
    ensures Apply(img, ws)[ws[i].block] == ws[i].data
  {
    if i < |ws| - 1 {
      ApplyAt(img, ws[..|ws| - 1], i);
    }
  }

  lemma {:induction false} OverwriteElsewhere(img: Image, t: Txn, b: nat)
    requires |t.datas| == |t.lh| && b < |img| && (forall i :: 0 <= i < |t.lh| ==> t.lh[i] < |img|) && b !in t.lh
    ensures Overwrite(img, t)[b] == img[b]
    decreases |t.lh|
  {
    if t.lh != [] {
      var n := |t.lh| - 1;
      OverwriteElsewhere(img, Txn(t.lh[..n], t.datas[..n]), b);
    }
  }

  lemma {:induction false} OverwriteAt(img: Image, t: Txn, i: nat)
    requires |t.datas| == |t.lh| && i < |t.lh| && Distinct(t.lh) && forall i :: 0 <= i < |t.lh| ==> t.lh[i] < |img|
    ensures Overwrite(img, t)[t.lh[i]] == t.datas[i]
    decreases |t.lh|
  {
    var n := |t.lh| - 1;
    if i < n {
      OverwriteAt(img, Txn(t.lh[..n], t.datas[..n]), i);
    }
  }

  // ----- recovery -----

  lemma InstalledElsewhere(img: Image, start: nat, lh: seq<Word>, datas: seq<Data>, j: nat, b: nat)
    requires Loggable(|img|, start, lh) && |datas| == |lh| && j <= |lh| && b < |img| && b !in lh
    ensures InRange(|img|, InstallWrites(lh, datas)[..j]) && Apply(img, InstallWrites(lh, datas)[..j])[b] == img[b]
  {
    ApplyElsewhere(img, InstallWrites(lh, datas)[..j], b);
  }

  /** The header and the slots are all that decides what the listed blocks stand for. */
  lemma ShowsCarriesOver(img: Image, x: Image, start: nat, lh: seq<Word>, m: Image)
    requires Shows(img, start, lh, m) && |x| == |img|
    requires forall b :: 0 <= b < |x| && b !in lh ==> x[b] == img[b]
    ensures Shows(x, start, lh, m)
  {
    forall i | 0 <= i < |lh| ensures m[lh[i]] == Slot(x, start, i) {
      assert x[start + 1 + i] == img[start + 1 + i];
    }
  }

  /** Some of the listed blocks have been installed already: the homes still stand for the same. */
  lemma PartlyInstalled(img: Image, start: nat, m: Image, j: nat)
    requires Means(img, start, m) && j <= HeadCount(img[start])
    ensures Means(Apply(img, RecoveryWrites(img, start)[..j]), start, m)
  {
    var lh := Head(img[start]);
    var datas := Slots(img, start, |lh|);
    var ws := RecoveryWrites(img, start)[..j];
    assert ws == InstallWrites(lh, datas)[..j];
    forall b | 0 <= b < |img| && b !in lh ensures Apply(img, ws)[b] == img[b] {
      InstalledElsewhere(img, start, lh, datas, j, b);
    }
    ShowsCarriesOver(img, Apply(img, ws), start, lh, m);
  }

  lemma InstalledAt(img: Image, start: nat, t: Txn, i: nat)
    requires Committable(|img|, start, t) && i < |t.lh|
    ensures InRange(|img|, InstallWrites(t.lh, t.datas))
    ensures Apply(img, InstallWrites(t.lh, t.datas))[t.lh[i]] == t.datas[i]
  {
    ApplyAt(img, InstallWrites(t.lh, t.datas), i);
  }

  /** What the end of a commit, or a whole recovery, makes of the disk. */
  lemma AfterLastWrites(img: Image, head: Data, start: nat, t: Txn)
    requires HasLog(img, start) && Committable(|img|, start, t)
    ensures InRange(|img|, LastWrites(head, start, t))
    ensures var r := Apply(img, LastWrites(head, start, t));
      && r[start] == WithHead(head, [])
      && (forall i :: 0 <= i < |t.lh| ==> r[t.lh[i]] == t.datas[i])
      && (forall h :: 0 <= h < |img| && h != start && h !in t.lh ==> r[h] == img[h])
  {
    var ws, last := InstallWrites(t.lh, t.datas), Write(start, WithHead(head, []));
    ApplyOne(img, ws, last);
    var r := Apply(img, ws)[start := last.data];
    forall i | 0 <= i < |t.lh| ensures r[t.lh[i]] == t.datas[i] {
      InstalledAt(img, start, t, i);
    }
    forall h | 0 <= h < |img| && h != start && h !in t.lh ensures r[h] == img[h] {
      ApplyElsewhere(img, ws, h);
    }
  }

  lemma ClearMeans(r: Image, start: nat, m: Image)
    requires Clear(r, start) && SameHomes(r, m, start)
    ensures Means(r, start, m)
  {
  }

  lemma InstalledShown(img: Image, start: nat, t: Txn, m: Image, r: Image)
    requires Shows(img, start, t.lh, m) && |r| == |img| && |t.datas| == |t.lh|
    requires forall i :: 0 <= i < |t.lh| ==> t.datas[i] == Slot(img, start, i)
    requires forall i :: 0 <= i < |t.lh| ==> r[t.lh[i]] == t.datas[i]
    requires forall h :: 0 <= h < |img| && h != start && h !in t.lh ==> r[h] == img[h]
    ensures SameHomes(r, m, start)
  {
    forall h | 0 <= h < |img| && Home(start, h) ensures r[h] == m[h] {
      if h in t.lh {
        var i :| 0 <= i < |t.lh| && t.lh[i] == h;
        assert m[t.lh[i]] == Slot(img, start, i);
      }
    }
  }

  lemma LoggedIsInSlots(img: Image, start: nat)
    requires Recoverable(img, start)
    ensures var t := Logged(img, start); forall i :: 0 <= i < |t.lh| ==> t.datas[i] == Slot(img, start, i)
  {
  }

  lemma Installed(img: Image, start: nat, t: Txn, m: Image, r: Image)
    requires Shows(img, start, t.lh, m) && |t.datas| == |t.lh|
    requires forall i :: 0 <= i < |t.lh| ==> t.datas[i] == Slot(img, start, i)
    requires InRange(|img|, LastWrites(img[start], start, t)) && r == Apply(img, LastWrites(img[start], start, t))
    ensures SameHomes(r, m, start) && Clear(r, start) && Means(r, start, m)
  {
    AfterLastWrites(img, img[start], start, t);
    InstalledShown(img, start, t, m, r);
    ClearMeans(r, start, m);
  }

  /** A recovery that runs to its end leaves what the homes stood for, and a clear header. */
  lemma FullyRecovered(img: Image, start: nat, m: Image)
    requires Means(img, start, m)
    ensures var r := Apply(img, RecoveryWrites(img, start));
      SameHomes(r, m, start) && Clear(r, start) && Means(r, start, m)
  {
    LoggedIsInSlots(img, start);
    Installed(img, start, Logged(img, start), m, Apply(img, RecoveryWrites(img, start)));
  }

  /** A recovery cut after `cut` of its disk writes, or run to the end if it has no more than that. */
  function CutRecovery(img: Image, start: nat, cut: nat): (r: Image)
    requires Recoverable(img, start)
    ensures |r| == |img|
  {
    var ws := RecoveryWrites(img, start);
    Apply(img, if cut < |ws| then ws[..cut] else ws)
  }

  lemma CutRecoveryMeans(img: Image, start: nat, m: Image, cut: nat)
    requires Means(img, start, m)
    ensures Means(CutRecovery(img, start, cut), start, m)
  {
    if cut < |RecoveryWrites(img, start)| {
      PartlyInstalled(img, start, m, cut);
    } else {
      FullyRecovered(img, start, m);
    }
  }

  /** `x` is reached from `img` by recoveries, one after the other, each cut as `cuts` says. */
  ghost predicate Recovered(img: Image, start: nat, cuts: seq<nat>, x: Image)
    decreases |cuts|
  {
    Recoverable(img, start) && if cuts == [] then x == img else Recovered(CutRecovery(img, start, cuts[0]), start, cuts[1..], x)
  }

  /** Cut recoveries can always be tried again, and change nothing about what the homes stand for. */
  lemma {:induction false} RecoveriesKeepMeaning(img: Image, start: nat, m: Image, cuts: seq<nat>) returns (x: Image)
    requires Means(img, start, m)
    ensures Recovered(img, start, cuts, x) && Means(x, start, m)
    ensures forall y :: Recovered(img, start, cuts, y) ==> y == x
    decreases |cuts|
  {
    if cuts == [] {
      x := img;
    } else {
      CutRecoveryMeans(img, start, m, cuts[0]);
      x := RecoveriesKeepMeaning(CutRecovery(img, start, cuts[0]), start, m, cuts[1..]);
    }
  }

  // ----- commit -----

  /** Before the header write, the transaction has left no trace. */
  lemma BeforeHeader(img: Image, start: nat, t: Txn, k: nat)
    requires Clear(img, start) && Committable(|img|, start, t) && k <= |t.lh|
    ensures InRange(|img|, SlotWrites(start, t.datas)[..k])
    ensures Means(Apply(img, SlotWrites(start, t.datas)[..k]), start, img)
  {
    var ws := SlotWrites(start, t.datas)[..k];
    var x := Apply(img, ws);
    forall b | 0 <= b < |img| && (b == start || Home(start, b)) ensures x[b] == img[b] {
      ApplyElsewhere(img, ws, b);
    }
  }

  /** The disk once the slots and the header have been written. */
  function Marked(img: Image, start: nat, t: Txn): (x: Image)
    requires HasLog(img, start) && Committable(|img|, start, t)
    ensures |x| == |img|
  {
    Apply(img, SlotWrites(start, t.datas))[start := WithHead(img[start], t.lh)]
  }

  lemma MarkedSlots(img: Image, start: nat, t: Txn)
    requires HasLog(img, start) && Committable(|img|, start, t)
    ensures forall i :: 0 <= i < |t.lh| ==> Slot(Marked(img, start, t), start, i) == t.datas[i]
    ensures Slots(Marked(img, start, t), start, |t.lh|) == t.datas
  {
    forall i | 0 <= i < |t.lh| ensures Slot(Marked(img, start, t), start, i) == t.datas[i] {
      ApplyAt(img, SlotWrites(start, t.datas), i);
    }
    assert forall i :: 0 <= i < |t.lh| ==> Slots(Marked(img, start, t), start, |t.lh|)[i] == Slot(Marked(img, start, t), start, i);
  }

  lemma MarkedHomes(img: Image, start: nat, t: Txn, h: nat)
    requires HasLog(img, start) && Committable(|img|, start, t) && h < |img| && Home(start, h)
    ensures Marked(img, start, t)[h] == img[h]
  {
    ApplyElsewhere(img, SlotWrites(start, t.datas), h);
  }

  lemma MarkedShows(img: Image, start: nat, t: Txn)
    requires Clear(img, start) && Committable(|img|, start, t)
    ensures Shows(Marked(img, start, t), start, t.lh, Overwrite(img, t))
  {
    var x, m := Marked(img, start, t), Overwrite(img, t);
    MarkedSlots(img, start, t);
    forall i | 0 <= i < |t.lh| ensures m[t.lh[i]] == Slot(x, start, i) {
      OverwriteAt(img, t, i);
    }
    forall h | 0 <= h < |img| && Home(start, h) && h !in t.lh ensures m[h] == x[h] {
      MarkedHomes(img, start, t, h);
      OverwriteElsewhere(img, t, h);
    }
  }

  /** The header write makes the homes stand for the whole transaction. */
  lemma AtHeader(img: Image, start: nat, t: Txn)
    requires Clear(img, start) && Committable(|img|, start, t)
    ensures Means(Marked(img, start, t), start, Overwrite(img, t)) && Head(Marked(img, start, t)[start]) == t.lh
  {
    MarkedShows(img, start, t);
    assert Marked(img, start, t)[start] == WithHead(img[start], t.lh);
  }

  lemma FirstWritesMark(img: Image, start: nat, t: Txn)
    requires HasLog(img, start) && Committable(|img|, start, t)
    ensures InRange(|img|, FirstWrites(img[start], start, t))
    ensures Apply(img, FirstWrites(img[start], start, t)) == Marked(img, start, t)
  {
    assert FirstWrites(img[start], start, t)[..|t.lh|] == SlotWrites(start, t.datas);
  }

  /** What is left of a commit after its header write is what a recovery would do. */
  lemma CommitIsHeaderThenRecovery(img: Image, start: nat, t: Txn)
    requires Clear(img, start) && Committable(|img|, start, t) && t.lh != []
    ensures var x := Marked(img, start, t);
      Recoverable(x, start) && CommitWrites(img[start], start, t) == FirstWrites(img[start], start, t) + RecoveryWrites(x, start)
  {
    AtHeader(img, start, t);
    MarkedSlots(img, start, t);
    assert Logged(Marked(img, start, t), start) == t;
  }

  lemma ApplyCut(img: Image, first: seq<Write>, rest: seq<Write>, k: nat)
    requires InRange(|img|, first) && InRange(|img|, rest) && |first| <= k <= |first| + |rest|
    ensures InRange(|img|, (first + rest)[..k])
    ensures Apply(img, (first + rest)[..k]) == Apply(Apply(img, first), rest[..k - |first|])
  {
    ApplyConcat(img, first, rest[..k - |first|]);
    assert (first + rest)[..k] == first + rest[..k - |first|];
  }

  lemma RecoveryAfter(img: Image, first: seq<Write>, start: nat, k: nat)
    requires InRange(|img|, first) && Recoverable(Apply(img, first), start)
    requires |first| <= k <= |first| + |RecoveryWrites(Apply(img, first), start)|
    ensures var ws := first + RecoveryWrites(Apply(img, first), start);
      InRange(|img|, ws[..k]) && Apply(img, ws[..k]) == CutRecovery(Apply(img, first), start, k - |first|)
  {
    ApplyCut(img, first, RecoveryWrites(Apply(img, first), start), k);
    CutRecoveryIs(Apply(img, first), start, k - |first|);
  }

  lemma CutRecoveryIs(x: Image, start: nat, j: nat)
    requires Recoverable(x, start) && j <= |RecoveryWrites(x, start)|
    ensures CutRecovery(x, start, j) == Apply(x, RecoveryWrites(x, start)[..j])
  {
    var ws := RecoveryWrites(x, start);
    assert ws[..|ws|] == ws;
  }

  lemma CutAfterHeader(img: Image, start: nat, t: Txn, k: nat)
    requires Clear(img, start) && Committable(|img|, start, t) && |t.lh| < k <= |CommitWrites(img[start], start, t)|
    ensures InRange(|img|, CommitWrites(img[start], start, t)[..k])
    ensures var x := Marked(img, start, t);
      Recoverable(x, start) && Apply(img, CommitWrites(img[start], start, t)[..k]) == CutRecovery(x, start, k - |t.lh| - 1)
  {
    CommitIsHeaderThenRecovery(img, start, t);
    FirstWritesMark(img, start, t);
    RecoveryAfter(img, FirstWrites(img[start], start, t), start, k);
  }

  /** After k writes of a commit the homes stand for the old contents up to the header write, and
      for the new ones from it on. */
  lemma CutCommitMeans(img: Image, start: nat, t: Txn, k: nat)
    requires Clear(img, start) && Committable(|img|, start, t) && k <= |CommitWrites(img[start], start, t)|
    ensures InRange(|img|, CommitWrites(img[start], start, t)[..k])
    ensures Means(Apply(img, CommitWrites(img[start], start, t)[..k]), start, if k > |t.lh| then Overwrite(img, t) else img)
  {
    var ws := CommitWrites(img[start], start, t);
    if k <= |t.lh| {
      BeforeHeader(img, start, t, k);
      assert ws[..k] == SlotWrites(start, t.datas)[..k];
    } else {
      CutAfterHeader(img, start, t, k);
      AtHeader(img, start, t);
      CutRecoveryMeans(Marked(img, start, t), start, Overwrite(img, t), k - |t.lh| - 1);
    }
  }

  /** Crash atomicity: cut a commit after any of its writes, then cut any number of recoveries after
      any of theirs; once a recovery completes, the home blocks are all new if the first header write
      had landed, and all old if not. */
  lemma CommitIsAtomic(img: Image, start: nat, t: Txn, k: nat, cuts: seq<nat>) returns (x: Image)
    requires Clear(img, start) && Committable(|img|, start, t) && k <= |CommitWrites(img[start], start, t)|
    ensures InRange(|img|, CommitWrites(img[start], start, t)[..k])
    ensures Recovered(Apply(img, CommitWrites(img[start], start, t)[..k]), start, cuts, x)
    ensures forall y :: Recovered(Apply(img, CommitWrites(img[start], start, t)[..k]), start, cuts, y) ==> y == x
    ensures Recoverable(x, start)
    ensures var r := Apply(x, RecoveryWrites(x, start));
      Clear(r, start) && SameHomes(r, if k > |t.lh| then Overwrite(img, t) else img, start)
  {
    CutCommitMeans(img, start, t, k);
    var cut := Apply(img, CommitWrites(img[start], start, t)[..k]);
    var m := if k > |t.lh| then Overwrite(img, t) else img;
    x := RecoveriesKeepMeaning(cut, start, m, cuts);
    FullyRecovered(x, start, m);
  }

  /** A commit that is not cut leaves the new contents in place and the log clear. */
  lemma WholeCommit(img: Image, start: nat, t: Txn)
    requires Clear(img, start) && Committable(|img|, start, t)
    ensures var ws := CommitWrites(img[start], start, t);
      && InRange(|img|, ws) && Clear(Apply(img, ws), start) && SameHomes(Apply(img, ws), Overwrite(img, t), start)
  {
    var ws := CommitWrites(img[start], start, t);
    if t.lh != [] {
      CutAfterHeader(img, start, t, |ws|);
      assert ws[..|ws|] == ws;
      AtHeader(img, start, t);
      FullyRecovered(Marked(img, start, t), start, Overwrite(img, t));
    }
  }

  // ----- many transactions -----

  predicate AllCommittable(size: nat, start: nat, ts: seq<Txn>) {
    forall i :: 0 <= i < |ts| ==> Committable(size, start, ts[i]) && ts[i].lh != []
  }

  /** The disk after the first `k` disk writes of a run of transactions. */
  function AfterWrites(img: Image, start: nat, ts: seq<Txn>, k: nat): (r: Image)
    requires Clear(img, start) && AllCommittable(|img|, start, ts)
    ensures |r| == |img|
    decreases |ts|
  {
    if ts == [] then img
    else
      WholeCommit(img, start, ts[0]);
      var ws := CommitWrites(img[start], start, ts[0]);
      if k < |ws| then Apply(img, ws[..k]) else AfterWrites(Apply(img, ws), start, ts[1..], k - |ws|)
  }

  /** The reference: the transactions, one after the other, each at once. */
  function OverwriteAll(img: Image, start: nat, ts: seq<Txn>): (r: Image)
    requires AllCommittable(|img|, start, ts)
    ensures |r| == |img|
    decreases |ts|
  {
    if ts == [] then img else OverwriteAll(Overwrite(img, ts[0]), start, ts[1..])
  }

  /** How many transactions have their first header write among the first `k` disk writes. */
  function Landed(ts: seq<Txn>, k: nat): (n: nat)
    ensures n <= |ts|
  {
    if ts == [] || k <= |ts[0].lh| then 0
    else 1 + Landed(ts[1..], if k > 2 * |ts[0].lh| + 2 then k - (2 * |ts[0].lh| + 2) else 0)
  }

  lemma {:induction false} OverwriteSameHomes(a: Image, b: Image, start: nat, t: Txn)
    requires SameHomes(a, b, start) && Committable(|a|, start, t)
    ensures SameHomes(Overwrite(a, t), Overwrite(b, t), start)
  {
    forall h | 0 <= h < |a| && Home(start, h) ensures Overwrite(a, t)[h] == Overwrite(b, t)[h] {
      if h in t.lh {
        var i :| 0 <= i < |t.lh| && t.lh[i] == h;
        OverwriteAt(a, t, i);
        OverwriteAt(b, t, i);
      } else {
        OverwriteElsewhere(a, t, h);
        OverwriteElsewhere(b, t, h);
      }
    }
  }

  lemma {:induction false} OverwriteAllSameHomes(a: Image, b: Image, start: nat, ts: seq<Txn>)
    requires SameHomes(a, b, start) && AllCommittable(|a|, start, ts)
    ensures SameHomes(OverwriteAll(a, start, ts), OverwriteAll(b, start, ts), start)
    decreases |ts|
  {
    if ts != [] {
      OverwriteSameHomes(a, b, start, ts[0]);
      OverwriteAllSameHomes(Overwrite(a, ts[0]), Overwrite(b, ts[0]), start, ts[1..]);
    }
  }

  lemma FirstOfRun(img: Image, start: nat, ts: seq<Txn>, k: nat) returns (m: Image)
    requires Clear(img, start) && AllCommittable(|img|, start, ts) && ts != [] && k < 2 * |ts[0].lh| + 2
    ensures Means(AfterWrites(img, start, ts, k), start, m) && m == OverwriteAll(img, start, ts[..Landed(ts, k)])
  {
    CutCommitMeans(img, start, ts[0], k);
    m := if k > |ts[0].lh| then Overwrite(img, ts[0]) else img;
    assert Landed(ts[1..], 0) == 0;
    if k > |ts[0].lh| {
      assert ts[..1] == [ts[0]];
    }
  }

  lemma OverwriteAllFirst(img: Image, start: nat, t: Txn, ts: seq<Txn>)
    requires Committable(|img|, start, t) && t.lh != [] && AllCommittable(|img|, start, ts)
    ensures OverwriteAll(img, start, [t] + ts) == OverwriteAll(Overwrite(img, t), start, ts)
  {
    assert ([t] + ts)[1..] == ts;
  }

  /** The disk after the first transaction of a run. */
  predicate FirstDone(img: Image, start: nat, ts: seq<Txn>, x: Image) {
    HasLog(img, start) && ts != [] && Committable(|img|, start, ts[0])
    && InRange(|img|, CommitWrites(img[start], start, ts[0])) && x == Apply(img, CommitWrites(img[start], start, ts[0]))
  }

  lemma RestOfRun(img: Image, start: nat, ts: seq<Txn>, n: nat, x: Image)
    requires Clear(img, start) && AllCommittable(|img|, start, ts) && ts != [] && n < |ts| && FirstDone(img, start, ts, x)
    ensures SameHomes(OverwriteAll(x, start, ts[1..][..n]), OverwriteAll(img, start, ts[..n + 1]), start)
  {
    WholeCommit(img, start, ts[0]);
    assert ts[..n + 1] == [ts[0]] + ts[1..][..n];
    OverwriteAllFirst(img, start, ts[0], ts[1..][..n]);
    OverwriteAllSameHomes(x, Overwrite(img, ts[0]), start, ts[1..][..n]);
  }

  lemma AfterFirst(img: Image, start: nat, ts: seq<Txn>, k: nat) returns (x: Image)
    requires Clear(img, start) && AllCommittable(|img|, start, ts) && ts != [] && k >= 2 * |ts[0].lh| + 2
    ensures FirstDone(img, start, ts, x) && Clear(x, start) && |x| == |img|
    ensures AfterWrites(img, start, ts, k) == AfterWrites(x, start, ts[1..], k - (2 * |ts[0].lh| + 2))
  {
    WholeCommit(img, start, ts[0]);
    x := Apply(img, CommitWrites(img[start], start, ts[0]));
  }

  lemma LandedRest(ts: seq<Txn>, k: nat)
    requires ts != [] && k >= 2 * |ts[0].lh| + 2
    ensures Landed(ts, k) == Landed(ts[1..], k - (2 * |ts[0].lh| + 2)) + 1 <= |ts|
  {
  }

  lemma SameHomesThrough(a: Image, b: Image, c: Image, start: nat)
    requires SameHomes(a, b, start) && SameHomes(b, c, start)
    ensures SameHomes(a, c, start)
  {
  }

  /** What the homes should stand for after n transactions. */
  predicate HomesAre(m: Image, img: Image, start: nat, ts: seq<Txn>, n: nat) {
    Clear(img, start) && AllCommittable(|img|, start, ts) && n <= |ts| && SameHomes(m, OverwriteAll(img, start, ts[..n]), start)
  }

  lemma HomesOfRest(img: Image, start: nat, ts: seq<Txn>, n: nat, x: Image, m: Image)
    requires Clear(img, start) && AllCommittable(|img|, start, ts) && ts != [] && n < |ts| && FirstDone(img, start, ts, x)
    requires HomesAre(m, x, start, ts[1..], n)
    ensures HomesAre(m, img, start, ts, n + 1)
  {
    RestOfRun(img, start, ts, n, x);
    SameHomesThrough(m, OverwriteAll(x, start, ts[1..][..n]), OverwriteAll(img, start, ts[..n + 1]), start);
  }

  lemma EmptyRun(img: Image, start: nat, k: nat)
    requires Clear(img, start)
    ensures Means(AfterWrites(img, start, [], k), start, img)
    ensures SameHomes(img, OverwriteAll(img, start, [][..Landed([], k)]), start)
  {
    ClearMeans(img, start, img);
  }

  /** The homes of a run that is cut after k writes stand for m: its landed transactions. */
  predicate StandsFor(img: Image, start: nat, ts: seq<Txn>, k: nat, m: Image) {
    && Clear(img, start) && AllCommittable(|img|, start, ts)
    && Means(AfterWrites(img, start, ts, k), start, m) && HomesAre(m, img, start, ts, Landed(ts, k))
  }

  lemma StandsForRest(img: Image, start: nat, ts: seq<Txn>, k: nat, x: Image, m: Image)
    requires Clear(img, start) && AllCommittable(|img|, start, ts) && ts != [] && k >= 2 * |ts[0].lh| + 2 && FirstDone(img, start, ts, x)
    requires Clear(x, start) && AfterWrites(img, start, ts, k) == AfterWrites(x, start, ts[1..], k - (2 * |ts[0].lh| + 2))
    requires StandsFor(x, start, ts[1..], k - (2 * |ts[0].lh| + 2), m)
    ensures StandsFor(img, start, ts, k, m)
  {
    LandedRest(ts, k);
    HomesOfRest(img, start, ts, Landed(ts[1..], k - (2 * |ts[0].lh| + 2)), x, m);
  }

  /** Cut a run of transactions after any disk write: the homes stand for a prefix of them, namely
      those whose header write had landed. */
  lemma {:induction false} RunsStandForAPrefix(img: Image, start: nat, ts: seq<Txn>, k: nat) returns (m: Image)
    requires Clear(img, start) && AllCommittable(|img|, start, ts)
    ensures StandsFor(img, start, ts, k, m)
    decreases |ts|
  {
    if ts == [] {
      m := img;
      EmptyRun(img, start, k);
    } else if k < 2 * |ts[0].lh| + 2 {
      m := FirstOfRun(img, start, ts, k);
    } else {
      var x := AfterFirst(img, start, ts, k);
      m := RunsStandForAPrefix(x, start, ts[1..], k - (2 * |ts[0].lh| + 2));
      StandsForRest(img, start, ts, k, x, m);
    }
  }

  /** Crash anywhere in a run of transactions, cut recoveries as often as you like: the recovered disk
      holds exactly the transactions whose header write had landed, in order, and nothing else. */
  lemma RecoveredDiskIsAPrefix(img: Image, start: nat, ts: seq<Txn>, k: nat, cuts: seq<nat>) returns (x: Image)
    requires Clear(img, start) && AllCommittable(|img|, start, ts)
    ensures Recovered(AfterWrites(img, start, ts, k), start, cuts, x)
    ensures Recoverable(x, start)
    ensures var r := Apply(x, RecoveryWrites(x, start));
      Clear(r, start) && SameHomes(r, OverwriteAll(img, start, ts[..Landed(ts, k)]), start)
  {
    var m := RunsStandForAPrefix(img, start, ts, k);
    x := RecoveriesKeepMeaning(AfterWrites(img, start, ts, k), start, m, cuts);
    FullyRecovered(x, start, m);
  }
}
