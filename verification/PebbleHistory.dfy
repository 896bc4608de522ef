/** The vocabulary of PebbleDB: write records, the per-layer maps they leave behind, the merged
    lookup through a stack of layers, and the plain map a history of writes stands for.
    (projects/06-pebbledb/src/memtable, projects/06-pebbledb/src/db.cpp) */
module PebbleHistory {

  datatype Option<+T> = None | Some(value: T)

  type Key = string
  type Bytes = string

  /** One write as the write-ahead log stores it; a deletion carries no value. */
  datatype Record = Record(seqno: nat, key: Key, value: Option<Bytes>)

  /** What a layer holds for a key: a value, or a tombstone when `value` is None. */
  datatype Entry = Entry(seqno: nat, value: Option<Bytes>)

  /** One sorted layer: a MemTable or a table file, one entry per key. */
  type Layer = map<Key, Entry>

  function Insert(l: Layer, r: Record): Layer {
    l[r.key := Entry(r.seqno, r.value)]
  }

  /** The layer that results from applying records in log order. */
  function Replay(h: seq<Record>): Layer {
    if h == [] then map[] else Insert(Replay(h[..|h| - 1]), h[|h| - 1])
  }

  /** The reference: a plain map, on which a put overwrites and a deletion removes. */
  function Write(m: map<Key, Bytes>, r: Record): map<Key, Bytes> {
    if r.value.Some? then m[r.key := r.value.value] else m - {r.key}
  }

  function Fold(h: seq<Record>): map<Key, Bytes> {
    if h == [] then map[] else Write(Fold(h[..|h| - 1]), h[|h| - 1])
  }

  /** Merged lookup: the first layer that mentions the key answers for it. */
  function Lookup(layers: seq<Layer>, k: Key): Option<Entry> {
    if layers == [] then None
    else if k in layers[0] then Some(layers[0][k])
    else Lookup(layers[1..], k)
  }

  function Latest(h: seq<Record>, k: Key): Option<Entry> {
    if k in Replay(h) then Some(Replay(h)[k]) else None
  }

  function Reverse<T>(s: seq<T>): (r: seq<T>)
    ensures |r| == |s|
  {
    if s == [] then [] else Reverse(s[1..]) + [s[0]]
  }

  predicate Live(e: Option<Entry>) {
    e.Some? && e.value.value.Some?
  }

  /** The keys whose merged lookup is a value. */
  function LiveKeys(layers: seq<Layer>): set<Key> {
    if layers == [] then {}
    else (set k | k in layers[0] && layers[0][k].value.Some?) + (LiveKeys(layers[1..]) - layers[0].Keys)
  }

  /** What a reader sees through the layers, as a plain map. */
  function View(layers: seq<Layer>): map<Key, Bytes> {
    map k | k in LiveKeys(layers) && Live(Lookup(layers, k)) :: Lookup(layers, k).value.value.value
  }

  ghost predicate Agrees(layers: seq<Layer>, h: seq<Record>) {
    forall k :: Lookup(layers, k) == Latest(h, k)
  }

  /** Sequence numbers are positions in the history, counted from one. */
  ghost predicate Numbered(h: seq<Record>) {
    forall i :: 0 <= i < |h| ==> h[i].seqno == i + 1
  }

  /** Every entry of the layer is a write of the history. */
  ghost predicate FromHistory(l: Layer, h: seq<Record>) {
    forall k :: k in l ==> 1 <= l[k].seqno <= |h| && h[l[k].seqno - 1] == Record(l[k].seqno, k, l[k].value)
  }

  lemma {:induction false} LiveKeysAreLive(layers: seq<Layer>, k: Key)
    ensures k in LiveKeys(layers) <==> Live(Lookup(layers, k))
  {
    if layers != [] {
      LiveKeysAreLive(layers[1..], k);
    }
  }

  lemma {:induction false} LookupConcat(a: seq<Layer>, b: seq<Layer>, k: Key)
    ensures Lookup(a + b, k) == if Lookup(a, k).Some? then Lookup(a, k) else Lookup(b, k)
  {
    if a == [] {
      assert a + b == b;
    } else {
      assert (a + b)[1..] == a[1..] + b;
      LookupConcat(a[1..], b, k);
    }
  }

  lemma {:induction false} LookupMentions(layers: seq<Layer>, i: nat, k: Key)
    requires i < |layers| && k in layers[i]
    ensures Lookup(layers, k).Some?
  {
    if i > 0 {
      assert layers[1..][i - 1] == layers[i];
      LookupMentions(layers[1..], i - 1, k);
    }
  }

  /** Two stacks with the same lookups show the same live keys. */
  lemma SameLookupsSameLiveKeys(a: seq<Layer>, b: seq<Layer>)
    requires forall k :: Lookup(a, k) == Lookup(b, k)
    ensures LiveKeys(a) == LiveKeys(b)
    ensures View(a) == View(b)
  {
    forall k ensures k in LiveKeys(a) <==> k in LiveKeys(b) {
      LiveKeysAreLive(a, k);
      LiveKeysAreLive(b, k);
    }
  }

  /** Replaying a tail of the history leaves only writes of the history. */
  lemma {:induction false} ReplayIsFromHistory(h: seq<Record>, from: nat)
    requires Numbered(h) && from <= |h|
    ensures FromHistory(Replay(h[from..]), h)
    ensures forall k :: k in Replay(h[from..]) ==> Replay(h[from..])[k].seqno > from
    decreases |h|
  {
    var t := h[from..];
    if t != [] {
      var n := |h| - 1;
      ReplayIsFromHistory(h[..n], from);
      assert t[..|t| - 1] == h[..n][from..];
      assert Replay(t) == Insert(Replay(h[..n][from..]), h[n]);
    }
  }

  /** What a stack of layers answers is a write of the history. */
  lemma {:induction false} LookupFromHistory(layers: seq<Layer>, h: seq<Record>, k: Key)
    requires (forall i :: 0 <= i < |layers| ==> FromHistory(layers[i], h)) && Lookup(layers, k).Some?
    ensures var e := Lookup(layers, k).value; 1 <= e.seqno <= |h| && h[e.seqno - 1] == Record(e.seqno, k, e.value)
  {
    if k !in layers[0] {
      LookupFromHistory(layers[1..], h, k);
    }
  }

  lemma {:induction false} ReversedFrom(ls: seq<Layer>, h: seq<Record>)
    requires forall i :: 0 <= i < |ls| ==> FromHistory(ls[i], h)
    ensures forall i :: 0 <= i < |ls| ==> FromHistory(Reverse(ls)[i], h)
  {
    if ls != [] {
      ReversedFrom(ls[1..], h);
    }
  }

  /** A replayed tail holds, for each key it mentions, a write no older than any it contains. */
  lemma {:induction false} ReplayIsNewest(h: seq<Record>, from: nat, i: nat)
    requires Numbered(h) && from <= i < |h|
    ensures h[i].key in Replay(h[from..]) && Replay(h[from..])[h[i].key].seqno >= i + 1
    decreases |h|
  {
    var t := h[from..];
    var n := |h| - 1;
    assert t[..|t| - 1] == h[..n][from..];
    assert Replay(t) == Insert(Replay(h[..n][from..]), h[n]);
    if i < n {
      ReplayIsNewest(h[..n], from, i);
    }
  }

  /** The suffix of a history decides every key it mentions; the prefix decides the rest. */
  lemma {:induction false} LatestBySuffix(h: seq<Record>, from: nat, k: Key)
    requires from <= |h|
    ensures Latest(h, k) == if k in Replay(h[from..]) then Some(Replay(h[from..])[k]) else Latest(h[..from], k)
    decreases |h|
  {
    var t := h[from..];
    if t == [] {
      assert h[..from] == h;
    } else {
      var h' := h[..|h| - 1];
      assert t[..|t| - 1] == h'[from..];
      assert h'[..from] == h[..from];
      LatestBySuffix(h', from, k);
      assert Replay(t) == Insert(Replay(h'[from..]), t[|t| - 1]);
    }
  }

  /** The plain map of a history, key by key, is the latest write to that key. */
  lemma {:induction false} FoldIsLatest(h: seq<Record>, k: Key)
    ensures k in Fold(h) <==> Live(Latest(h, k))
    ensures k in Fold(h) ==> Fold(h)[k] == Latest(h, k).value.value.value
  {
    if h != [] {
      FoldIsLatest(h[..|h| - 1], k);
    }
  }

  /** A stack of layers that answers with the latest write shows exactly the plain map. */
  lemma AgreeingLayersShowTheFold(layers: seq<Layer>, h: seq<Record>)
    requires Agrees(layers, h)
    ensures View(layers) == Fold(h)
    ensures LiveKeys(layers) == Fold(h).Keys
  {
    forall k ensures (k in LiveKeys(layers) <==> k in Fold(h)) && (k in Fold(h) ==> k in View(layers) && View(layers)[k] == Fold(h)[k]) {
      LiveKeysAreLive(layers, k);
      FoldIsLatest(h, k);
      assert Lookup(layers, k) == Latest(h, k);
    }
  }

  /** No layer holds a higher sequence number for a key than the layer that answers. */
  lemma AnswerIsNewest(layers: seq<Layer>, h: seq<Record>, i: nat, k: Key)
    requires Numbered(h) && Agrees(layers, h)
    requires i < |layers| && k in layers[i] && FromHistory(layers[i], h)
    ensures Lookup(layers, k).Some? && layers[i][k].seqno <= Lookup(layers, k).value.seqno
  {
    LookupMentions(layers, i, k);
    assert Lookup(layers, k) == Latest(h, k);
    ReplayIsNewest(h, 0, layers[i][k].seqno - 1);
    assert h[0..] == h;
    assert h[layers[i][k].seqno - 1].key == k;
  }
}
