/** The Bloom filter of a table file. (projects/06-pebbledb/src/bloom/bloom_filter.cpp) */
module BloomFilter {
  import opened Codec

  // ----- bits -----

  /** The n low bits of v, the lowest first. */
  function Bits(v: nat, n: nat): (b: seq<bool>)
    ensures |b| == n
  {
    if n == 0 then [] else [v % 2 == 1] + Bits(v / 2, n - 1)
  }

  function Value(b: seq<bool>): nat {
    if b == [] then 0 else (if b[0] then 1 else 0) + 2 * Value(b[1..])
  }

  function Halves(n: nat): nat {
    if n == 0 then 1 else 2 * Halves(n - 1)
  }

  lemma {:induction false} BitsOfValue(b: seq<bool>)
    ensures Value(b) < Halves(|b|) && Bits(Value(b), |b|) == b
  {
    if b != [] {
      BitsOfValue(b[1..]);
      assert b == [b[0]] + b[1..];
    }
  }

  lemma Eight()
    ensures Halves(8) == 256
  {
    assert Halves(2) == 4 && Halves(4) == 16 && Halves(6) == 64;
  }

  function WithBit(b: Byte, i: nat): (r: Byte)
    requires i < 8
    ensures Bits(r, 8) == Bits(b, 8)[i := true]
  {
    BitsOfValue(Bits(b, 8)[i := true]);
    Eight();
    Value(Bits(b, 8)[i := true])
  }

  /** Bit `pos` of an array of bytes. */
  predicate BitAt(bits: Bytes, pos: nat)
    requires pos < 8 * |bits|
  {
    Bits(bits[pos / 8], 8)[pos % 8]
  }

  function Marked(bits: Bytes, pos: nat): (r: Bytes)
    requires pos < 8 * |bits|
    ensures |r| == |bits|
  {
    bits[pos / 8 := WithBit(bits[pos / 8], pos % 8)]
  }

  lemma MarkedAt(bits: Bytes, pos: nat, q: nat)
    requires pos < 8 * |bits| && q < 8 * |bits|
    ensures BitAt(Marked(bits, pos), q) <==> q == pos || BitAt(bits, q)
  {
  }

  // ----- probes -----

  function Hash2(h: Word): Word {
    h / 32768 + h % 32768 * 131072
  }

  /** The hash of probe i: the first one, and then a step further each time, in 32 bits. */
  function Probe(h: Word, i: nat): Word {
    if i == 0 then h else (Probe(h, i - 1) + Hash2(h)) % U32
  }

  /** The number of bits, cut to 32 bits: what the probes are divided by. */
  function Divisor(numBits: nat): (d: nat)
    ensures d <= numBits
  {
    numBits % U32
  }

  function Position(hash: Checksum, key: Bytes, i: nat, numBits: nat): (pos: nat)
    requires Divisor(numBits) > 0
    ensures pos < numBits
  {
    Probe(hash(key), i) % Divisor(numBits)
  }

  /** Every probe of a key finds its bit. */
  predicate Matches(hash: Checksum, key: Bytes, bits: Bytes, probes: nat)
    requires Divisor(8 * |bits|) > 0
  {
    forall i {:trigger Position(hash, key, i, 8 * |bits|)} :: 0 <= i < probes ==> BitAt(bits, Position(hash, key, i, 8 * |bits|))
  }

  /** A search in this filter does not divide by zero. */
  predicate Usable(filter: Bytes) {
    |filter| < 2 || filter[0] == 0 || Divisor(8 * |filter[1..]|) > 0
  }

  /** KeyMayMatch: filters of fewer than two bytes match everything. */
  predicate MayMatch(hash: Checksum, key: Bytes, filter: Bytes)
    requires Usable(filter)
  {
    |filter| < 2 || filter[0] == 0 || Matches(hash, key, filter[1..], filter[0])
  }

  /** KeyMayMatch's loop. */
  method KeyMayMatch(hash: Checksum, key: Bytes, filter: Bytes) returns (may: bool)
    requires Usable(filter)
    ensures may <==> MayMatch(hash, key, filter)
  {
    if |filter| < 2 {
      return true;
    }
    var probes, bits := filter[0], filter[1..];
    var n := 8 * |bits|;
    var g, h2 := hash(key), Hash2(hash(key));
    var i := 0;
    while i < probes
      invariant 0 <= i <= probes && g == Probe(hash(key), i) && (probes > 0 ==> Divisor(n) > 0)
      invariant forall j {:trigger Position(hash, key, j, n)} :: 0 <= j < i ==> BitAt(bits, Position(hash, key, j, n))
    {
      var pos := g % Divisor(n);
      assert pos == Position(hash, key, i, n);
      if !BitAt(bits, pos) {
        return false;
      }
      g := (g + h2) % U32;
      i := i + 1;
    }
    may := true;
  }

  /** The bit is one of those that the first `k` keys, and the first `p` probes of the next, set. */
  ghost predicate Hit(hash: Checksum, keys: seq<Bytes>, k: nat, p: nat, probes: nat, numBits: nat, pos: nat)
    requires Divisor(numBits) > 0 && k <= |keys| && (p > 0 ==> k < |keys|)
  {
    || (exists j, i {:trigger Position(hash, keys[j], i, numBits)} :: 0 <= j < k && 0 <= i < probes && Position(hash, keys[j], i, numBits) == pos)
    || (p > 0 && exists i {:trigger Position(hash, keys[k], i, numBits)} :: 0 <= i < p && Position(hash, keys[k], i, numBits) == pos)
  }

  /** The filter has the bits of its keys, and no others. */
  ghost predicate Exact(hash: Checksum, keys: seq<Bytes>, k: nat, p: nat, probes: nat, bits: Bytes)
    requires Divisor(8 * |bits|) > 0 && k <= |keys| && (p > 0 ==> k < |keys|)
  {
    forall pos: nat {:trigger BitAt(bits, pos)} :: pos < 8 * |bits| ==> (BitAt(bits, pos) <==> Hit(hash, keys, k, p, probes, 8 * |bits|, pos))
  }

  function Zeros(n: nat): (b: Bytes)
    ensures |b| == n
  {
    seq(n, _ => 0)
  }

  lemma {:induction false} NoBits(n: nat)
    ensures forall i :: 0 <= i < n ==> !Bits(0, n)[i]
  {
    if n > 0 {
      NoBits(n - 1);
      assert Bits(0, n) == [false] + Bits(0, n - 1);
    }
  }

  /** The size of a filter in bits: at least 64, and whole bytes. */
  function FilterBits(keys: nat, bitsPerKey: nat): nat {
    var wanted := keys * bitsPerKey;
    8 * (((if wanted < 64 then 64 else wanted) + 7) / 8)
  }

  /** BuildFilter: the number of probes, and then the bits of all keys and no others. */
  method BuildFilter(hash: Checksum, keys: seq<Bytes>, bitsPerKey: nat, probes: nat) returns (filter: Bytes)
    requires 1 <= probes <= 30 && (keys != [] && bitsPerKey > 0 ==> Divisor(FilterBits(|keys|, bitsPerKey)) > 0)
    ensures keys == [] || bitsPerKey == 0 ==> filter == []
    ensures Usable(filter)
    ensures keys != [] && bitsPerKey > 0 ==> 8 * (|filter| - 1) == FilterBits(|keys|, bitsPerKey) && filter[0] == probes && Exact(hash, keys, |keys|, 0, probes, filter[1..])
    ensures forall j :: 0 <= j < |keys| ==> MayMatch(hash, keys[j], filter)
  {
    if keys == [] || bitsPerKey == 0 {
      return [];
    }
    var numBits := if |keys| * bitsPerKey < 64 then 64 else |keys| * bitsPerKey;
    var numBytes := (numBits + 7) / 8;
    assert 8 * numBytes == FilterBits(|keys|, bitsPerKey);
    var bits := Zeros(numBytes);
    NoBits(8);
    var k := 0;
    while k < |keys|
      invariant 0 <= k <= |keys| && |bits| == numBytes && Exact(hash, keys, k, 0, probes, bits)
    {
      bits := AddKey(hash, keys, k, probes, bits);
      k := k + 1;
    }
    filter := [probes] + bits;
    assert filter[1..] == bits;
    AllMatch(hash, keys, probes, bits);
  }

  /** The bits of one key: BuildFilter's inner loop. */
  method AddKey(hash: Checksum, keys: seq<Bytes>, k: nat, probes: nat, before: Bytes) returns (bits: Bytes)
    requires Divisor(8 * |before|) > 0 && k < |keys| && Exact(hash, keys, k, 0, probes, before)
    ensures |bits| == |before| && Exact(hash, keys, k + 1, 0, probes, bits)
  {
    bits := before;
    var n := 8 * |bits|;
    var g, h2 := hash(keys[k]), Hash2(hash(keys[k]));
    var i := 0;
    while i < probes
      invariant 0 <= i <= probes && |bits| == |before| && g == Probe(hash(keys[k]), i)
      invariant Exact(hash, keys, k, i, probes, bits)
    {
      assert g % Divisor(n) == Position(hash, keys[k], i, n);
      OneMoreProbe(hash, keys, k, i, probes, bits);
      bits := Marked(bits, g % Divisor(n));
      g := (g + h2) % U32;
      i := i + 1;
    }
    KeyDone(hash, keys, k, probes, bits);
  }

  lemma OneMoreProbe(hash: Checksum, keys: seq<Bytes>, k: nat, p: nat, probes: nat, bits: Bytes)
    requires Divisor(8 * |bits|) > 0 && k < |keys| && Exact(hash, keys, k, p, probes, bits)
    ensures Exact(hash, keys, k, p + 1, probes, Marked(bits, Position(hash, keys[k], p, 8 * |bits|)))
  {
    var n := 8 * |bits|;
    var at := Position(hash, keys[k], p, n);
    var more := Marked(bits, at);
    forall pos: nat | pos < n ensures BitAt(more, pos) <==> Hit(hash, keys, k, p + 1, probes, n, pos) {
      MarkedAt(bits, at, pos);
      assert BitAt(bits, pos) <==> Hit(hash, keys, k, p, probes, n, pos);
      if pos == at { assert Position(hash, keys[k], p, n) == pos; }
    }
  }

  lemma KeyDone(hash: Checksum, keys: seq<Bytes>, k: nat, probes: nat, bits: Bytes)
    requires Divisor(8 * |bits|) > 0 && k < |keys| && Exact(hash, keys, k, probes, probes, bits)
    ensures Exact(hash, keys, k + 1, 0, probes, bits)
  {
    var n := 8 * |bits|;
    forall pos: nat | pos < n ensures BitAt(bits, pos) <==> Hit(hash, keys, k + 1, 0, probes, n, pos) {
      assert BitAt(bits, pos) <==> Hit(hash, keys, k, probes, probes, n, pos);
    }
  }

  lemma AllMatch(hash: Checksum, keys: seq<Bytes>, probes: nat, bits: Bytes)
    requires Divisor(8 * |bits|) > 0 && Exact(hash, keys, |keys|, 0, probes, bits)
    ensures forall j :: 0 <= j < |keys| ==> Matches(hash, keys[j], bits, probes)
  {
    forall j, i | 0 <= j < |keys| && 0 <= i < probes ensures BitAt(bits, Position(hash, keys[j], i, 8 * |bits|)) {
      assert Hit(hash, keys, |keys|, 0, probes, 8 * |bits|, Position(hash, keys[j], i, 8 * |bits|));
    }
  }
}
