/** Online softmax: one pass over a row in tiles, keeping a running maximum, a running sum and a running
    weighted output, against the plain definition. Numbers are reals and `exp` is any function with the
    laws of an exponential, so every result here holds of the real one.
    (projects/04-flashlite/src/flashlite/online_softmax.py, docs/online-softmax.md) */
module OnlineSoftmax {

  datatype Result<T> = Ok(value: T) | ValueError

  /** A score, or the mark of a masked position. */
  datatype Score = NegInf | Fin(v: real)

  /** Running maximum and running sum. */
  datatype Stat = Stat(m: Score, l: real)

  const EMPTY := Stat(NegInf, 0.0)

  predicate SumLaw(exp: real -> real, a: real, b: real) {
    exp(a + b) == exp(a) * exp(b)
  }

  ghost predicate IsExp(exp: real -> real) {
    && (forall a, b {:trigger SumLaw(exp, a, b)} :: SumLaw(exp, a, b))
    && (forall a :: exp(a) > 0.0)
  }

  predicate AtMost(a: Score, b: Score) {
    a == NegInf || (b.Fin? && a.v <= b.v)
  }

  function Max(a: Score, b: Score): (m: Score)
    ensures AtMost(a, m) && AtMost(b, m) && (m == a || m == b)
  {
    if AtMost(a, b) then b else a
  }

  /** exp(x - m), and 0 for the masked mark. */
  function Factor(exp: real -> real, x: Score, m: Score): real {
    if x == NegInf || m == NegInf then 0.0 else exp(x.v - m.v)
  }

  /** combine_online_stats. */
  function Combine(exp: real -> real, a: Stat, b: Stat): Stat {
    var m := Max(a.m, b.m);
    if m == NegInf then EMPTY else Stat(m, a.l * Factor(exp, a.m, m) + b.l * Factor(exp, b.m, m))
  }

  // ----- what a pair stands for -----

  /** The weight of a position before normalization. */
  function Weight(exp: real -> real, s: Score): real {
    if s == NegInf then 0.0 else exp(s.v)
  }

  /** The total weight a pair stands for. */
  function Mass(exp: real -> real, a: Stat): real {
    a.l * Weight(exp, a.m)
  }

  /** A pair that says "nothing seen" has nothing in its sum. */
  predicate Proper(a: Stat) {
    a.m == NegInf ==> a.l == 0.0
  }

  lemma FactorScales(exp: real -> real, x: Score, m: Score)
    requires IsExp(exp) && AtMost(x, m)
    ensures Factor(exp, x, m) * Weight(exp, m) == Weight(exp, x)
  {
    if x.Fin? {
      assert SumLaw(exp, x.v - m.v, m.v);
      assert x.v - m.v + m.v == x.v;
    }
  }

  lemma Regroup(l: real, c: real, w: real)
    ensures l * c * w == l * (c * w)
  {
  }

  lemma Cancel(a: real, b: real, w: real)
    requires w > 0.0 && a * w == b * w
    ensures a == b
  {
    assert (a - b) * w == 0.0;
  }

  lemma Sign(l: real, w: real)
    requires w > 0.0
    ensures (l * w == 0.0 <==> l == 0.0) && (l * w >= 0.0 <==> l >= 0.0)
  {
  }

  /** Combining adds what the pairs stand for. */
  lemma CombineAddsMass(exp: real -> real, a: Stat, b: Stat)
    requires IsExp(exp) && Proper(a) && Proper(b)
    ensures Proper(Combine(exp, a, b)) && Combine(exp, a, b).m == Max(a.m, b.m)
    ensures Mass(exp, Combine(exp, a, b)) == Mass(exp, a) + Mass(exp, b)
  {
    var m := Max(a.m, b.m);
    if m.Fin? {
      var w, ca, cb := Weight(exp, m), Factor(exp, a.m, m), Factor(exp, b.m, m);
      FactorScales(exp, a.m, m);
      FactorScales(exp, b.m, m);
      Regroup(a.l, ca, w);
      Regroup(b.l, cb, w);
      assert (a.l * ca + b.l * cb) * w == a.l * ca * w + b.l * cb * w;
    }
  }

  /** A proper pair is its maximum and what it stands for. */
  lemma MassDetermines(exp: real -> real, a: Stat, b: Stat)
    requires IsExp(exp) && Proper(a) && Proper(b) && a.m == b.m && Mass(exp, a) == Mass(exp, b)
    ensures a == b
  {
    if a.m.Fin? { Cancel(a.l, b.l, exp(a.m.v)); }
  }

  /** Any order of combining gives the same pair. */
  lemma CombineIsCommutative(exp: real -> real, a: Stat, b: Stat)
    ensures Combine(exp, a, b) == Combine(exp, b, a)
  {
  }

  /** Any grouping gives the same pair. */
  lemma CombineIsAssociative(exp: real -> real, a: Stat, b: Stat, c: Stat)
    requires IsExp(exp) && Proper(a) && Proper(b) && Proper(c)
    ensures Combine(exp, Combine(exp, a, b), c) == Combine(exp, a, Combine(exp, b, c))
  {
    var ab, bc := Combine(exp, a, b), Combine(exp, b, c);
    CombineAddsMass(exp, a, b);
    CombineAddsMass(exp, b, c);
    CombineAddsMass(exp, ab, c);
    CombineAddsMass(exp, a, bc);
    MassDetermines(exp, Combine(exp, ab, c), Combine(exp, a, bc));
  }

  /** The empty pair is the identity, for exactly the proper pairs. */
  lemma EmptyIsIdentity(exp: real -> real, a: Stat)
    requires IsExp(exp)
    ensures Combine(exp, a, EMPTY) == a <==> Proper(a)
  {
    if a.m.Fin? {
      FactorScales(exp, a.m, a.m);
      var w := exp(a.m.v);
      Cancel(Factor(exp, a.m, a.m), 1.0, w);
    }
  }

  // ----- the plain definition -----

  function TotalWeight(exp: real -> real, row: seq<Score>): real {
    if row == [] then 0.0 else TotalWeight(exp, row[..|row| - 1]) + Weight(exp, row[|row| - 1])
  }

  function MaxOf(row: seq<Score>): (m: Score)
    ensures forall j :: 0 <= j < |row| ==> AtMost(row[j], m)
    ensures row != [] ==> m in row
  {
    if row == [] then NegInf else Max(MaxOf(row[..|row| - 1]), row[|row| - 1])
  }

  /** The sum of exp(s - m) over the row. */
  function SumRelative(exp: real -> real, row: seq<Score>, m: Score): real {
    if row == [] then 0.0 else SumRelative(exp, row[..|row| - 1], m) + Factor(exp, row[|row| - 1], m)
  }

  /** The two-pass pair: the maximum first, then the sum relative to it. */
  function TwoPass(exp: real -> real, row: seq<Score>): Stat {
    Stat(MaxOf(row), SumRelative(exp, row, MaxOf(row)))
  }

  lemma {:induction false} SumRelativeScales(exp: real -> real, row: seq<Score>, m: Score)
    requires IsExp(exp) && forall j :: 0 <= j < |row| ==> AtMost(row[j], m)
    ensures SumRelative(exp, row, m) * Weight(exp, m) == TotalWeight(exp, row)
    ensures m == NegInf ==> SumRelative(exp, row, m) == 0.0
  {
    if row != [] {
      var n := |row| - 1;
      SumRelativeScales(exp, row[..n], m);
      FactorScales(exp, row[n], m);
      var s, f, w := SumRelative(exp, row[..n], m), Factor(exp, row[n], m), Weight(exp, m);
      assert (s + f) * w == s * w + f * w;
    }
  }

  lemma TwoPassMass(exp: real -> real, row: seq<Score>)
    requires IsExp(exp)
    ensures Proper(TwoPass(exp, row)) && Mass(exp, TwoPass(exp, row)) == TotalWeight(exp, row)
  {
    SumRelativeScales(exp, row, MaxOf(row));
  }

  lemma {:induction false} TotalWeightConcat(exp: real -> real, a: seq<Score>, b: seq<Score>)
    ensures TotalWeight(exp, a + b) == TotalWeight(exp, a) + TotalWeight(exp, b)
    ensures MaxOf(a + b) == Max(MaxOf(a), MaxOf(b))
  {
    if b == [] {
      assert a + b == a;
    } else {
      var n := |b| - 1;
      assert (a + b)[..|a + b| - 1] == a + b[..n];
      TotalWeightConcat(exp, a, b[..n]);
    }
  }

  /** The pair of a union is the combination of the pairs of its parts. */
  lemma CombineIsUnion(exp: real -> real, a: seq<Score>, b: seq<Score>)
    requires IsExp(exp)
    ensures Combine(exp, TwoPass(exp, a), TwoPass(exp, b)) == TwoPass(exp, a + b)
  {
    TwoPassMass(exp, a);
    TwoPassMass(exp, b);
    TwoPassMass(exp, a + b);
    TotalWeightConcat(exp, a, b);
    CombineAddsMass(exp, TwoPass(exp, a), TwoPass(exp, b));
    MassDetermines(exp, Combine(exp, TwoPass(exp, a), TwoPass(exp, b)), TwoPass(exp, a + b));
  }

  predicate AllMasked(row: seq<Score>) {
    forall j :: 0 <= j < |row| ==> row[j] == NegInf
  }

  lemma {:induction false} WeightIsPositive(exp: real -> real, row: seq<Score>)
    requires IsExp(exp)
    ensures TotalWeight(exp, row) >= 0.0
    ensures TotalWeight(exp, row) == 0.0 <==> AllMasked(row)
    ensures MaxOf(row) == NegInf <==> AllMasked(row)
  {
    if row != [] {
      WeightIsPositive(exp, row[..|row| - 1]);
      assert forall j :: 0 <= j < |row| - 1 ==> row[..|row| - 1][j] == row[j];
    }
  }

  /** The normalization sum is zero exactly when the whole row is masked. */
  lemma SumIsZeroIffMasked(exp: real -> real, row: seq<Score>)
    requires IsExp(exp)
    ensures (TwoPass(exp, row).l == 0.0 <==> AllMasked(row)) && TwoPass(exp, row).l >= 0.0
  {
    TwoPassMass(exp, row);
    WeightIsPositive(exp, row);
    var a := TwoPass(exp, row);
    if a.m.Fin? { Sign(a.l, exp(a.m.v)); }
  }

  // ----- one pass over tiles -----

  /** online_softmax_stats: the two-pass pair, whatever the tile size. */
  method OnlineStats(exp: real -> real, scores: seq<Score>, tileSize: int) returns (r: Result<Stat>)
    requires IsExp(exp)
    ensures r == if scores == [] || tileSize <= 0 then ValueError else Ok(TwoPass(exp, scores))
  {
    if scores == [] || tileSize <= 0 {
      return ValueError;
    }
    var stat := EMPTY;
    var start := 0;
    while start < |scores|
      invariant 0 <= start <= |scores| && stat == TwoPass(exp, scores[..start])
      decreases |scores| - start
    {
      var end := if start + tileSize < |scores| then start + tileSize else |scores|;
      var tile := scores[start..end];
      assert scores[..end] == scores[..start] + tile;
      CombineIsUnion(exp, scores[..start], tile);
      TileIsTwoPass(exp, tile);
      stat := Combine(exp, stat, TileStat(exp, tile));
      start := end;
    }
    assert scores[..|scores|] == scores;
    r := Ok(stat);
  }

  lemma TileIsTwoPass(exp: real -> real, tile: seq<Score>)
    requires IsExp(exp)
    ensures TileStat(exp, tile) == TwoPass(exp, tile)
  {
    TwoPassMass(exp, tile);
  }

  /** A tile on its own. */
  function TileStat(exp: real -> real, tile: seq<Score>): (s: Stat) {
    var m := MaxOf(tile);
    if m == NegInf then EMPTY else Stat(m, SumRelative(exp, tile, m))
  }

  // ----- the normalized row -----

  /** softmax by its definition: each position's share of the total weight. */
  function Softmax(exp: real -> real, row: seq<Score>): (p: seq<real>)
    requires TotalWeight(exp, row) != 0.0
    ensures |p| == |row|
  {
    seq(|row|, j requires 0 <= j < |row| => Weight(exp, row[j]) / TotalWeight(exp, row))
  }

  lemma SameShare(x: real, l: real, w: real, y: real, t: real)
    requires l != 0.0 && w > 0.0 && x * w == y && l * w == t
    ensures t != 0.0 && x / l == y / t
  {
    Sign(l, w);
    var q := x / l;
    Regroup(q, l, w);
    assert q * t == y;
  }

  lemma TwoPassSum(exp: real -> real, row: seq<Score>, l: real, w: real, t: real)
    requires IsExp(exp) && !AllMasked(row)
    requires l == TwoPass(exp, row).l && w == Weight(exp, MaxOf(row)) && t == TotalWeight(exp, row)
    ensures l != 0.0 && t != 0.0 && w > 0.0 && l * w == t
  {
    SumIsZeroIffMasked(exp, row);
    WeightIsPositive(exp, row);
    SumRelativeScales(exp, row, MaxOf(row));
  }

  lemma FactorIs(exp: real -> real, x: Score, m: Score, f: real, w: real, y: real)
    requires IsExp(exp) && AtMost(x, m) && f == Factor(exp, x, m) && w == Weight(exp, m) && y == Weight(exp, x)
    ensures f * w == y
  {
    FactorScales(exp, x, m);
  }

  /** A position's share of the sum relative to the maximum is its share of the total weight. */
  lemma ShareAt(exp: real -> real, row: seq<Score>, j: nat, l: real, w: real, t: real, f: real, y: real)
    requires IsExp(exp) && !AllMasked(row) && j < |row|
    requires l == TwoPass(exp, row).l && w == Weight(exp, MaxOf(row)) && t == TotalWeight(exp, row)
    requires f == Factor(exp, row[j], MaxOf(row)) && y == Weight(exp, row[j])
    ensures l != 0.0 && t != 0.0 && f / l == y / t
  {
    TwoPassSum(exp, row, l, w, t);
    FactorIs(exp, row[j], MaxOf(row), f, w, y);
    SameShare(f, l, w, y, t);
  }

  /** online_softmax_row: softmax, for every row with a position that is not masked. */
  method SoftmaxRow(exp: real -> real, scores: seq<Score>, tileSize: int) returns (r: Result<seq<real>>)
    requires IsExp(exp)
    ensures r.Ok? <==> tileSize > 0 && !AllMasked(scores)
    ensures r.Ok? ==> TotalWeight(exp, scores) != 0.0 && r.value == Softmax(exp, scores)
  {
    var stat := OnlineStats(exp, scores, tileSize);
    if stat == ValueError {
      return ValueError;
    }
    SumIsZeroIffMasked(exp, scores);
    if stat.value.l == 0.0 {
      return ValueError;
    }
    var m, l := stat.value.m, stat.value.l;
    WeightIsPositive(exp, scores);
    ghost var t := TotalWeight(exp, scores);
    var p: seq<real> := [];
    for j := 0 to |scores|
      invariant |p| == j && t != 0.0
      invariant forall k :: 0 <= k < j ==> p[k] == Weight(exp, scores[k]) / t
    {
      ShareAt(exp, scores, j, l, Weight(exp, m), t, Factor(exp, scores[j], m), Weight(exp, scores[j]));
      p := p + [Factor(exp, scores[j], m) / l];
    }
    r := Ok(p);
  }

  // ----- the weighted output -----

  /** One value vector of length d for each score. */
  predicate Shaped(row: seq<Score>, v: seq<seq<real>>, d: nat) {
    |v| == |row| && forall j :: 0 <= j < |v| ==> |v[j]| == d
  }

  /** Coordinate k of the sum of weighted value vectors. */
  function WeightedTotal(exp: real -> real, row: seq<Score>, v: seq<seq<real>>, d: nat, k: nat): real
    requires Shaped(row, v, d) && k < d
    decreases |row|
  {
    if row == [] then 0.0
    else
      var n := |row| - 1;
      WeightedTotal(exp, row[..n], v[..n], d, k) + Weight(exp, row[n]) * v[n][k]
  }

  /** The same, relative to m. */
  function WeightedRelative(exp: real -> real, row: seq<Score>, v: seq<seq<real>>, d: nat, k: nat, m: Score): real
    requires Shaped(row, v, d) && k < d
    decreases |row|
  {
    if row == [] then 0.0
    else
      var n := |row| - 1;
      WeightedRelative(exp, row[..n], v[..n], d, k, m) + Factor(exp, row[n], m) * v[n][k]
  }

  /** softmax(scores) @ v: the average of the value vectors, weighted by softmax. */
  function Attention(exp: real -> real, row: seq<Score>, v: seq<seq<real>>, d: nat): (out: seq<real>)
    requires Shaped(row, v, d) && TotalWeight(exp, row) != 0.0
    ensures |out| == d
  {
    seq(d, k requires 0 <= k < d => Dot(Softmax(exp, row), v, d, k))
  }

  function Dot(p: seq<real>, v: seq<seq<real>>, d: nat, k: nat): real
    requires |p| == |v| && (forall j :: 0 <= j < |v| ==> |v[j]| == d) && k < d
  {
    if p == [] then 0.0
    else
      var n := |p| - 1;
      Dot(p[..n], v[..n], d, k) + p[n] * v[n][k]
  }

  lemma Distribute(a: real, b: real, w: real)
    ensures (a + b) * w == a * w + b * w
  {
  }

  /** A softmax-weighted average is the weighted total over the total weight. */
  lemma {:induction false} DotIsShare(exp: real -> real, row: seq<Score>, t: real, p: seq<real>, v: seq<seq<real>>, d: nat, k: nat)
    requires t != 0.0 && Shaped(row, v, d) && k < d && |p| == |row| && forall j :: 0 <= j < |row| ==> p[j] == Weight(exp, row[j]) / t
    ensures Dot(p, v, d, k) * t == WeightedTotal(exp, row, v, d, k)
    decreases |row|
  {
    if row != [] {
      var n := |row| - 1;
      DotIsShare(exp, row[..n], t, p[..n], v[..n], d, k);
      Distribute(Dot(p[..n], v[..n], d, k), p[n] * v[n][k], t);
      TimesTotal(p[n], v[n][k], t, Weight(exp, row[n]));
    }
  }

  lemma TimesTotal(p: real, v: real, t: real, w: real)
    requires t != 0.0 && p == w / t
    ensures p * v * t == w * v
  {
    assert p * t == w;
    assert p * v * t == p * t * v;
  }

  lemma {:induction false} WeightedScales(exp: real -> real, row: seq<Score>, v: seq<seq<real>>, d: nat, k: nat, m: Score)
    requires IsExp(exp) && Shaped(row, v, d) && k < d && forall j :: 0 <= j < |row| ==> AtMost(row[j], m)
    ensures WeightedRelative(exp, row, v, d, k, m) * Weight(exp, m) == WeightedTotal(exp, row, v, d, k)
    decreases |row|
  {
    if row != [] {
      var n := |row| - 1;
      WeightedScales(exp, row[..n], v[..n], d, k, m);
      FactorScales(exp, row[n], m);
      Distribute(WeightedRelative(exp, row[..n], v[..n], d, k, m), Factor(exp, row[n], m) * v[n][k], Weight(exp, m));
      Swap(Factor(exp, row[n], m), v[n][k], Weight(exp, m));
    }
  }

  lemma Swap(f: real, v: real, w: real)
    ensures f * v * w == f * w * v
  {
  }

  lemma {:induction false} WeightedConcat(exp: real -> real, a: seq<Score>, va: seq<seq<real>>, b: seq<Score>, vb: seq<seq<real>>, d: nat, k: nat)
    requires Shaped(a, va, d) && Shaped(b, vb, d) && k < d
    ensures WeightedTotal(exp, a + b, va + vb, d, k) == WeightedTotal(exp, a, va, d, k) + WeightedTotal(exp, b, vb, d, k)
    decreases |b|
  {
    if b == [] {
      assert a + b == a && va + vb == va;
    } else {
      var n := |b| - 1;
      assert (a + b)[..|a| + n] == a + b[..n] && (va + vb)[..|a| + n] == va + vb[..n];
      WeightedConcat(exp, a, va, b[..n], vb[..n], d, k);
    }
  }

  lemma {:induction false} MaskedTile(exp: real -> real, row: seq<Score>, v: seq<seq<real>>, d: nat, k: nat)
    requires Shaped(row, v, d) && k < d && AllMasked(row)
    ensures WeightedTotal(exp, row, v, d, k) == 0.0
    decreases |row|
  {
    if row != [] {
      var n := |row| - 1;
      MaskedTile(exp, row[..n], v[..n], d, k);
      assert Weight(exp, row[n]) * v[n][k] == 0.0;
    }
  }

  /** Two outputs, each rescaled to the greater maximum, and added. */
  function Blend(exp: real -> real, a: real, ma: Score, b: real, mb: Score): real {
    a * Factor(exp, ma, Max(ma, mb)) + b * Factor(exp, mb, Max(ma, mb))
  }

  /** A blend stands for what its two parts stand for. */
  lemma Rescaled(exp: real -> real, a: real, ma: Score, b: real, mb: Score)
    requires IsExp(exp)
    ensures Blend(exp, a, ma, b, mb) * Weight(exp, Max(ma, mb)) == a * Weight(exp, ma) + b * Weight(exp, mb)
  {
    var m := Max(ma, mb);
    FactorScales(exp, ma, m);
    FactorScales(exp, mb, m);
    Distribute(a * Factor(exp, ma, m), b * Factor(exp, mb, m), Weight(exp, m));
    Regroup(a, Factor(exp, ma, m), Weight(exp, m));
    Regroup(b, Factor(exp, mb, m), Weight(exp, m));
  }

  /** A running output coordinate, relative to the running maximum, stands for the weighted total so far. */
  ghost predicate Stands(exp: real -> real, a: real, m: Score, row: seq<Score>, v: seq<seq<real>>, d: nat, k: nat)
    requires Shaped(row, v, d) && k < d
  {
    a * Weight(exp, m) == WeightedTotal(exp, row, v, d, k)
  }

  /** A tile's own output stands for the tile. */
  lemma TileStands(exp: real -> real, tile: seq<Score>, tileV: seq<seq<real>>, d: nat, k: nat)
    requires IsExp(exp) && Shaped(tile, tileV, d) && k < d
    ensures Stands(exp, WeightedRelative(exp, tile, tileV, d, k, MaxOf(tile)), MaxOf(tile), tile, tileV, d, k)
  {
    WeightedScales(exp, tile, tileV, d, k, MaxOf(tile));
  }

  lemma BlendStands(exp: real -> real, a: real, m: Score, row: seq<Score>, v: seq<seq<real>>, b: real, tm: Score, tile: seq<Score>, tileV: seq<seq<real>>, d: nat, k: nat)
    requires IsExp(exp) && Shaped(tile, tileV, d) && Shaped(row, v, d) && k < d
    requires Stands(exp, a, m, row, v, d, k) && Stands(exp, b, tm, tile, tileV, d, k)
    ensures Shaped(row + tile, v + tileV, d) && Stands(exp, Blend(exp, a, m, b, tm), Max(m, tm), row + tile, v + tileV, d, k)
  {
    Rescaled(exp, a, m, b, tm);
    WeightedConcat(exp, row, v, tile, tileV, d, k);
  }

  ghost predicate AllStand(exp: real -> real, acc: seq<real>, m: Score, row: seq<Score>, v: seq<seq<real>>, d: nat) {
    Shaped(row, v, d) && |acc| == d && forall k :: 0 <= k < d ==> Stands(exp, acc[k], m, row, v, d, k)
  }

  /** The body of the loop over tiles. */
  method AddTile(exp: real -> real, stat: Stat, acc: seq<real>, tile: seq<Score>, tileV: seq<seq<real>>, d: nat,
                 ghost row: seq<Score>, ghost v: seq<seq<real>>) returns (stat': Stat, acc': seq<real>)
    requires IsExp(exp) && Shaped(tile, tileV, d) && stat == TwoPass(exp, row) && AllStand(exp, acc, stat.m, row, v, d)
    ensures stat' == TwoPass(exp, row + tile) && AllStand(exp, acc', stat'.m, row + tile, v + tileV, d)
  {
    TwoPassMass(exp, row);
    CombineIsUnion(exp, row, tile);
    TileIsTwoPass(exp, tile);
    TotalWeightConcat(exp, row, tile);
    var tileMax := MaxOf(tile);
    var tileOut := seq(d, k requires 0 <= k < d => WeightedRelative(exp, tile, tileV, d, k, tileMax));
    forall k | 0 <= k < d ensures Shaped(row + tile, v + tileV, d) && Stands(exp, Blend(exp, acc[k], stat.m, tileOut[k], tileMax), Max(stat.m, tileMax), row + tile, v + tileV, d, k) {
      TileStands(exp, tile, tileV, d, k);
      BlendStands(exp, acc[k], stat.m, row, v, tileOut[k], tileMax, tile, tileV, d, k);
    }
    if tileMax == NegInf {
      // an entirely masked tile
      EmptyIsIdentity(exp, stat);
      SkippedTile(exp, acc, stat.m, row, v, tile, tileV, d);
      return stat, acc;
    }
    stat' := Combine(exp, stat, TileStat(exp, tile));
    acc' := seq(d, k requires 0 <= k < d => Blend(exp, acc[k], stat.m, tileOut[k], tileMax));
  }

  lemma SkippedTile(exp: real -> real, acc: seq<real>, m: Score, row: seq<Score>, v: seq<seq<real>>, tile: seq<Score>, tileV: seq<seq<real>>, d: nat)
    requires IsExp(exp) && Shaped(tile, tileV, d) && AllStand(exp, acc, m, row, v, d) && MaxOf(tile) == NegInf
    ensures AllStand(exp, acc, m, row + tile, v + tileV, d)
  {
    WeightIsPositive(exp, tile);
    forall k | 0 <= k < d ensures Shaped(row + tile, v + tileV, d) && Stands(exp, acc[k], m, row + tile, v + tileV, d, k) {
      WeightedConcat(exp, row, v, tile, tileV, d, k);
      MaskedTile(exp, tile, tileV, d, k);
      assert Stands(exp, acc[k], m, row, v, d, k);
    }
  }

  /** online_softmax_attention_row: softmax(scores) @ v for every tile size and every row with a position
      that is not masked; a value error otherwise. */
  method AttentionRow(exp: real -> real, scores: seq<Score>, v: seq<seq<real>>, d: nat, tileSize: int) returns (r: Result<seq<real>>)
    requires IsExp(exp) && forall j :: 0 <= j < |v| ==> |v[j]| == d
    ensures r.Ok? <==> |v| == |scores| && tileSize > 0 && !AllMasked(scores)
    ensures r.Ok? ==> Shaped(scores, v, d) && TotalWeight(exp, scores) != 0.0 && r.value == Attention(exp, scores, v, d)
  {
    if |v| != |scores| || scores == [] || tileSize <= 0 {
      return ValueError;
    }
    var stat, acc := EMPTY, seq(d, _ => 0.0);
    var start := 0;
    assert scores[..0] == [] && v[..0] == [];
    while start < |scores|
      invariant 0 <= start <= |scores| && stat == TwoPass(exp, scores[..start])
      invariant AllStand(exp, acc, stat.m, scores[..start], v[..start], d)
      decreases |scores| - start
    {
      var end := if start + tileSize < |scores| then start + tileSize else |scores|;
      assert scores[..end] == scores[..start] + scores[start..end] && v[..end] == v[..start] + v[start..end];
      stat, acc := AddTile(exp, stat, acc, scores[start..end], v[start..end], d, scores[..start], v[..start]);
      start := end;
    }
    assert scores[..|scores|] == scores && v[..|v|] == v;
    SumIsZeroIffMasked(exp, scores);
    if stat.l == 0.0 {
      return ValueError;
    }
    r := Ok(Divided(exp, acc, stat.l, scores, v, d));
  }

  /** The final division turns what the output stands for into the softmax-weighted average. */
  function Divided(exp: real -> real, acc: seq<real>, l: real, ghost row: seq<Score>, ghost v: seq<seq<real>>, d: nat): (out: seq<real>)
    requires IsExp(exp) && Shaped(row, v, d) && !AllMasked(row) && l == TwoPass(exp, row).l != 0.0
    requires AllStand(exp, acc, MaxOf(row), row, v, d)
    ensures TotalWeight(exp, row) != 0.0 && out == Attention(exp, row, v, d)
  {
    TwoPassSum(exp, row, l, Weight(exp, MaxOf(row)), TotalWeight(exp, row));
    var out := seq(d, k requires 0 <= k < d => acc[k] / l);
    assert forall k :: 0 <= k < d ==> out[k] == Attention(exp, row, v, d)[k] by {
      forall k | 0 <= k < d ensures acc[k] / l == Dot(Softmax(exp, row), v, d, k) {
        assert Stands(exp, acc[k], MaxOf(row), row, v, d, k);
        CoordinateIsAverage(exp, acc[k], row, v, d, k, l, Weight(exp, MaxOf(row)), TotalWeight(exp, row), Dot(Softmax(exp, row), v, d, k), WeightedTotal(exp, row, v, d, k));
      }
    }
    out
  }

  lemma SoftmaxDot(exp: real -> real, row: seq<Score>, v: seq<seq<real>>, d: nat, k: nat, t: real, q: real, y: real)
    requires t == TotalWeight(exp, row) != 0.0 && Shaped(row, v, d) && k < d
    requires q == Dot(Softmax(exp, row), v, d, k) && y == WeightedTotal(exp, row, v, d, k)
    ensures q * t == y
  {
    DotIsShare(exp, row, t, Softmax(exp, row), v, d, k);
  }

  lemma StandsFor(exp: real -> real, a: real, m: Score, row: seq<Score>, v: seq<seq<real>>, d: nat, k: nat, w: real, y: real)
    requires Shaped(row, v, d) && k < d && Stands(exp, a, m, row, v, d, k) && w == Weight(exp, m) && y == WeightedTotal(exp, row, v, d, k)
    ensures a * w == y
  {
  }

  lemma CoordinateIsAverage(exp: real -> real, a: real, row: seq<Score>, v: seq<seq<real>>, d: nat, k: nat, l: real, w: real, t: real, q: real, y: real)
    requires IsExp(exp) && Shaped(row, v, d) && k < d && !AllMasked(row) && Stands(exp, a, MaxOf(row), row, v, d, k)
    requires l == TwoPass(exp, row).l && w == Weight(exp, MaxOf(row)) && t == TotalWeight(exp, row) != 0.0
    requires q == Dot(Softmax(exp, row), v, d, k) && y == WeightedTotal(exp, row, v, d, k)
    ensures l != 0.0 && a / l == q
  {
    TwoPassSum(exp, row, l, w, t);
    SoftmaxDot(exp, row, v, d, k, t, q, y);
    StandsFor(exp, a, MaxOf(row), row, v, d, k, w, y);
    QuotientOf(a, l, w, y, t, q);
  }

  lemma QuotientOf(a: real, l: real, w: real, y: real, t: real, q: real)
    requires l != 0.0 && t != 0.0 && w > 0.0 && a * w == y && l * w == t && q * t == y
    ensures a / l == q
  {
    SameShare(a, l, w, y, t);
    Quotient(q, t, y);
  }

  lemma Quotient(q: real, t: real, y: real)
    requires t != 0.0 && q * t == y
    ensures y / t == q
  {
  }
}
