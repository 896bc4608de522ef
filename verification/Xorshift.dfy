/** The lottery's random numbers: xorshift32 over 32-bit words. A word is handled through its bits,
    least significant first. (projects/07-xv6plus/kernel/proc.c) */
module Xorshift {

  type Bits = seq<bool>

  const WORD := 32
  const SIZE := 0x1_0000_0000  // how many words there are

  function Power(k: nat): (r: nat)
    ensures r > 0
  {
    if k == 0 then 1 else 2 * Power(k - 1)
  }

  function Num(x: Bits): nat {
    if x == [] then 0 else (if x[0] then 1 else 0) + 2 * Num(x[1..])
  }

  function ToBits(n: nat, k: nat): (x: Bits)
    ensures |x| == k
  {
    if k == 0 then [] else [n % 2 == 1] + ToBits(n / 2, k - 1)
  }

  lemma {:induction false} BitsOfNum(x: Bits)
    ensures Num(x) < Power(|x|) && ToBits(Num(x), |x|) == x
  {
    if x != [] {
      BitsOfNum(x[1..]);
      var rest := Num(x[1..]);
      assert Num(x) / 2 == rest && (Num(x) % 2 == 1 <==> x[0]);
      assert x == [x[0]] + x[1..];
    }
  }

  lemma {:induction false} NumOfBits(n: nat, k: nat)
    requires n < Power(k)
    ensures Num(ToBits(n, k)) == n
  {
    if k > 0 {
      NumOfBits(n / 2, k - 1);
      assert ToBits(n, k)[1..] == ToBits(n / 2, k - 1);
    }
  }

  lemma WordSize()
    ensures Power(WORD) == SIZE
  {
    assert Power(8) == 256;
    PowerAdds(8, 8);
    PowerAdds(16, 16);
  }

  lemma {:induction false} PowerAdds(a: nat, b: nat)
    ensures Power(a + b) == Power(a) * Power(b)
  {
    if b > 0 {
      PowerAdds(a, b - 1);
    }
  }

  // ----- x ^= x << k and x ^= x >> k, and how to undo them -----

  function XorUp(x: Bits, k: nat): (y: Bits)
    ensures |y| == |x|
  {
    seq(|x|, i requires 0 <= i < |x| => if i < k then x[i] else x[i] != x[i - k])
  }

  function XorDown(x: Bits, k: nat): (y: Bits)
    ensures |y| == |x|
  {
    seq(|x|, i requires 0 <= i < |x| => if i + k < |x| then x[i] != x[i + k] else x[i])
  }

  /** Bit i of the word that XorUp turns into y: the bit k places below it has been settled before. */
  function BitBeforeUp(y: Bits, k: nat, i: nat): bool
    requires k > 0 && i < |y|
  {
    if i < k then y[i] else y[i] != BitBeforeUp(y, k, i - k)
  }

  function BitBeforeDown(y: Bits, k: nat, i: nat): bool
    requires k > 0 && i < |y|
    decreases |y| - i
  {
    if i + k < |y| then y[i] != BitBeforeDown(y, k, i + k) else y[i]
  }

  function UndoUp(y: Bits, k: nat): (x: Bits)
    requires k > 0
    ensures |x| == |y|
  {
    seq(|y|, i requires 0 <= i < |y| => BitBeforeUp(y, k, i))
  }

  function UndoDown(y: Bits, k: nat): (x: Bits)
    requires k > 0
    ensures |x| == |y|
  {
    seq(|y|, i requires 0 <= i < |y| => BitBeforeDown(y, k, i))
  }

  lemma {:induction false} UpBit(x: Bits, k: nat, i: nat)
    requires k > 0 && i < |x|
    ensures BitBeforeUp(XorUp(x, k), k, i) == x[i]
  {
    if i >= k {
      UpBit(x, k, i - k);
    }
  }

  lemma {:induction false} DownBit(x: Bits, k: nat, i: nat)
    requires k > 0 && i < |x|
    ensures BitBeforeDown(XorDown(x, k), k, i) == x[i]
    decreases |x| - i
  {
    if i + k < |x| {
      DownBit(x, k, i + k);
    }
  }

  lemma UpAndBack(x: Bits, k: nat)
    requires k > 0
    ensures UndoUp(XorUp(x, k), k) == x && XorUp(UndoUp(x, k), k) == x
  {
    forall i | 0 <= i < |x| ensures UndoUp(XorUp(x, k), k)[i] == x[i] {
      UpBit(x, k, i);
    }
  }

  lemma DownAndBack(x: Bits, k: nat)
    requires k > 0
    ensures UndoDown(XorDown(x, k), k) == x && XorDown(UndoDown(x, k), k) == x
  {
    forall i | 0 <= i < |x| ensures UndoDown(XorDown(x, k), k)[i] == x[i] {
      DownBit(x, k, i);
    }
  }

  // ----- the generator -----

  function Step(x: Bits): (y: Bits)
    ensures |y| == |x|
  {
    XorUp(XorDown(XorUp(x, 13), 17), 5)
  }

  function StepBack(y: Bits): (x: Bits)
    ensures |x| == |y|
  {
    UndoUp(UndoDown(UndoUp(y, 5), 17), 13)
  }

  lemma StepAndBack(x: Bits)
    ensures StepBack(Step(x)) == x && Step(StepBack(x)) == x
  {
    UpAndBack(x, 13);
    DownAndBack(XorUp(x, 13), 17);
    UpAndBack(XorDown(XorUp(x, 13), 17), 5);
    UpAndBack(x, 5);
    DownAndBack(UndoUp(x, 5), 17);
    UpAndBack(UndoDown(UndoUp(x, 5), 17), 13);
  }

  /** lottery_rand: the next state, which is also the number drawn. */
  function Next(n: nat): nat {
    Num(Step(ToBits(n, WORD)))
  }

  function Prev(n: nat): nat {
    Num(StepBack(ToBits(n, WORD)))
  }

  lemma {:induction false} ZeroBits(x: Bits)
    ensures Num(x) == 0 <==> forall i :: 0 <= i < |x| ==> !x[i]
  {
    if x != [] {
      ZeroBits(x[1..]);
      if Num(x) == 0 {
        forall i | 0 <= i < |x| ensures !x[i] {
          if i > 0 { assert x[i] == x[1..][i - 1]; }
        }
      }
    }
  }

  /** xorshift32 permutes the nonzero words. */
  lemma NextPermutes(n: nat)
    requires 0 < n < SIZE
    ensures 0 < Next(n) < SIZE && Prev(Next(n)) == n
    ensures 0 < Prev(n) < SIZE && Next(Prev(n)) == n
  {
    WordSize();
    var x := ToBits(n, WORD);
    NumOfBits(n, WORD);
    StepAndBack(x);
    BitsOfNum(Step(x));
    BitsOfNum(StepBack(x));
    NeverZero(n);
  }

  lemma NeverZero(n: nat)
    requires 0 < n < SIZE
    ensures Next(n) != 0 && Prev(n) != 0
  {
    WordSize();
    var x := ToBits(n, WORD);
    NumOfBits(n, WORD);
    StepAndBack(x);
    ZeroBits(x);
    ZeroBits(Step(x));
    ZeroBits(StepBack(x));
    if Next(n) == 0 { ZeroStays(Step(x)); }
    if Prev(n) == 0 { ZeroStays(StepBack(x)); }
  }

  lemma ZeroStays(x: Bits)
    requires forall i :: 0 <= i < |x| ==> !x[i]
    ensures forall i :: 0 <= i < |x| ==> !Step(x)[i]
    ensures forall i :: 0 <= i < |x| ==> !StepBack(x)[i]
  {
    assert XorUp(x, 13) == x && XorDown(x, 17) == x && XorUp(x, 5) == x;
    StepAndBack(x);
  }
}
