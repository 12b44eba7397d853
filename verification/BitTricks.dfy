/** The bit-counting fallbacks of stdlib_ext.hpp, on words of any width. */
module BitTricks {
  import opened Pow2
  import opened Masks
  import opened Conf
  import W = Words
  import P = PopCount

  /** A bit of `x` is set at one of the positions `p`, ..., `p + i - 1`. */
  ghost predicate SetWithin(x: Bits, p: int, i: int) { exists q :: 0 <= p <= q < p + i && q < |x| && x[q] }

  /** `y` is `x` with every bit smeared over the `i - 1` positions below it. */
  ghost predicate SmearedBy(x: Bits, y: Bits, i: int) {
    |y| == |x| && forall p :: 0 <= p < |x| ==> (y[p] <==> SetWithin(x, p, i))
  }

  lemma SmearTwice(x: Bits, y: Bits, i: nat)
    requires i >= 1 && SmearedBy(x, y, i)
    ensures SmearedBy(x, Or(y, Shr(y, i)), 2 * i)
  {
    var z := Or(y, Shr(y, i));
    forall p | 0 <= p < |x| ensures z[p] <==> SetWithin(x, p, 2 * i) {
      if SetWithin(x, p, 2 * i) {
        var q :| p <= q < p + 2 * i && q < |x| && x[q];
        if q < p + i {
          assert SetWithin(x, p, i);
        } else {
          assert SetWithin(x, p + i, i);
          assert y[p + i];
        }
      }
      if SetWithin(x, p, i) {
        var q :| p <= q < p + i && q < |x| && x[q];
        assert SetWithin(x, p, 2 * i);
      }
      if p + i < |x| && SetWithin(x, p + i, i) {
        var q :| p + i <= q < p + i + i && q < |x| && x[q];
        assert SetWithin(x, p, 2 * i);
      }
    }
  }

  lemma SmearNone(x: Bits)
    ensures SmearedBy(x, x, 1)
  {
    forall p | 0 <= p < |x| ensures x[p] <==> SetWithin(x, p, 1) {
      if x[p] { assert SetWithin(x, p, 1); }
    }
  }

  /** The number of bits up to the highest one that is set. */
  function Length(x: Bits, n: nat): (h: nat)
    requires n <= |x|
    ensures h <= n && (forall p :: h <= p < n ==> !x[p]) && (h > 0 ==> x[h - 1])
  {
    if n == 0 || x[n - 1] then n else Length(x, n - 1)
  }

  lemma SmearedIsLow(x: Bits, y: Bits, i: nat)
    requires SmearedBy(x, y, i) && i >= |x|
    ensures forall p :: 0 <= p < |x| ==> (y[p] <==> p < Length(x, |x|))
  {
    var h := Length(x, |x|);
    forall p | 0 <= p < |x| ensures y[p] <==> p < h {
      if p < h { assert SetWithin(x, p, i) by { assert x[h - 1]; } }
    }
  }

  lemma {:induction false} LowOnes(y: Bits, h: nat, n: nat)
    requires n <= |y| && h <= |y| && forall p :: 0 <= p < |y| ==> (y[p] <==> p < h)
    ensures Ones(y, n) == if n < h then n else h
  {
    if n > 0 { LowOnes(y, h, n - 1); }
  }

  /** The smearing loop: afterwards exactly the bits up to the highest one are set. */
  method Smear(x: Bits) returns (y: Bits)
    ensures |y| == |x| && forall p :: 0 <= p < |x| ==> (y[p] <==> p < Length(x, |x|))
  {
    y := x;
    var i := 1;
    SmearNone(x);
    while i < |x|
      invariant i >= 1 && SmearedBy(x, y, i)
      decreases |x| - i
    {
      SmearTwice(x, y, i);
      y := Or(y, Shr(y, i));
      i := 2 * i;
    }
    SmearedIsLow(x, y, i);
  }

  /** `countl_zero_fallback` */
  method CountlZero(x: Bits) returns (z: nat)
    ensures z <= |x| && (forall p :: |x| - z <= p < |x| ==> !x[p]) && (z < |x| ==> x[|x| - 1 - z])
  {
    var y := Smear(x);
    LowOnes(y, Length(x, |x|), |y|);
    z := |x| - Ones(y, |y|);
  }

  /** `countr_zero_fallback` */
  method CountrZero(x: Bits) returns (z: nat)
    ensures z == TrailingZeros(x, 0)
  {
    var any := if HasNext(x) then 1 else 0;
    var y := if HasNext(x) then Xor(x, Dec(x)) else seq(|x|, _ => true);
    var h := TrailingZeros(x, 0) + any;
    forall p | 0 <= p < |x| ensures y[p] <==> p < h { BorrowIsNone(x, p); }
    LowOnes(y, h, |y|);
    z := Ones(y, |y|) - any;
  }

  /** The carry into bit `p` when one is added: all bits below are one. */
  predicate Carry(m: Bits, p: nat)
    requires p <= |m|
  {
    p == 0 || (m[p - 1] && Carry(m, p - 1))
  }

  /** `x + 1`, wrapping around. */
  function Inc(m: Bits): Bits {
    seq(|m|, p requires 0 <= p < |m| => m[p] != Carry(m, p))
  }

  lemma {:induction false} IncPrefix(m: Bits, n: nat)
    requires n <= |m|
    ensures ValueOf(Inc(m), n) == ValueOf(m, n) + 1 - if Carry(m, n) then Pow(n) else 0
  {
    if n > 0 { IncPrefix(m, n - 1); }
  }

  lemma {:induction false} LowValue(y: Bits, h: nat, n: nat)
    requires n <= |y| && h <= |y| && forall p :: 0 <= p < |y| ==> (y[p] <==> p < h)
    ensures ValueOf(y, n) == Pow(if n < h then n else h) - 1
  {
    if n > 0 { LowValue(y, h, n - 1); }
  }

  lemma {:induction false} LengthBounds(x: Bits, n: nat)
    requires n <= |x|
    ensures ValueOf(x, n) < Pow(Length(x, n)) && (Length(x, n) > 0 ==> Pow(Length(x, n) - 1) <= ValueOf(x, n))
  {
    ValueBelow(x, n);
    if n > 0 && !x[n - 1] { LengthBounds(x, n - 1); }
  }

  lemma {:induction false} CarryIsAll(m: Bits, p: nat)
    requires p <= |m|
    ensures Carry(m, p) <==> forall q :: 0 <= q < p ==> m[q]
  {
    if p > 0 { CarryIsAll(m, p - 1); }
  }

  lemma BitCeilBetween(v: nat, h: nat)
    requires h > 0 && Pow(h - 1) < v <= Pow(h)
    ensures BitCeil(v) == Pow(h)
  {
    BitCeilIsPow2(v);
    BitCeilLeast(v, Pow(h));
    assert Pow(h) == 2 * Pow(h - 1);
    if BitCeil(v) < Pow(h) { NextPow(BitCeil(v), Pow(h)); }
  }

  /** Adding one to a word whose lowest `h` bits are set. */
  lemma IncOfLow(y: Bits, h: nat)
    requires h <= |y| && forall p :: 0 <= p < |y| ==> (y[p] <==> p < h)
    ensures ValueOf(Inc(y), |y|) == if h < |y| then Pow(h) else 0
  {
    LowValue(y, h, |y|);
    IncPrefix(y, |y|);
    CarryIsAll(y, |y|);
    assert h < |y| ==> !y[h];
  }

  /** How many bits the predecessor of a number has. */
  lemma LengthOfDec(x: Bits)
    requires |x| > 0
    ensures var v, h := ValueOf(x, |x|), Length(Dec(x), |x|);
      && (v == 0 ==> h == |x|)
      && (v > 0 ==> v <= Pow(h) && (h > 0 ==> Pow(h - 1) < v) && (h == 0 ==> v == 1))
  {
    var n := |x|;
    DecPrefix(x, n);
    BorrowIsNone(x, n);
    NoBitNoValue(x, n);
    LengthBounds(Dec(x), n);
    if ValueOf(x, n) == 0 {
      BorrowIsNone(x, n - 1);
      assert Dec(x)[n - 1];
    }
  }

  /** `bit_ceil_fallback`: the least power of two that is not below the argument, if the word can
      hold it; otherwise the increment wraps around and the result is one. */
  method BitCeilFallback(x: Bits) returns (r: nat)
    requires |x| > 0
    ensures r == if ValueOf(x, |x|) <= Pow(|x| - 1) then BitCeil(ValueOf(x, |x|)) else 1
  {
    hide ValueOf, Dec, Inc;
    var n := |x|;
    DecSize(x);
    var y := Smear(Dec(x));
    ghost var v, h := ValueOf(x, n), Length(Dec(x), n);
    LengthOfDec(x);
    IncOfLow(y, h);
    PowOrder(h, n);
    IncSize(y);
    var z := ValueOf(Inc(y), n);
    if 1 < v { BitCeilBetween(v, h); }
    r := if z <= 1 then 1 else z;
  }

  lemma {:induction false} OneBitValue(m: Bits, k: nat, n: nat)
    requires n <= |m| && forall p :: 0 <= p < |m| ==> (m[p] <==> p == k)
    ensures ValueOf(m, n) == if k < n then Pow(k) else 0
  {
    if n > 0 { OneBitValue(m, k, n - 1); }
  }

  lemma OneShifted(n: nat, k: nat)
    ensures |Shl(Word(n, true), k)| == n && ValueOf(Shl(Word(n, true), k), n) == if k < n then Pow(k) else 0
  {
    OneBitValue(Shl(Word(n, true), k), k, n);
  }

  /** The leading zeros of a word are what is above its highest bit. */
  lemma LeadingZeros(x: Bits, z: nat)
    requires z <= |x| && (forall p :: |x| - z <= p < |x| ==> !x[p]) && (z < |x| ==> x[|x| - 1 - z])
    ensures z == |x| - Length(x, |x|)
  {
  }

  /** `bit_ceil`, which shifts by the number of leading zeros of the predecessor.  For arguments
      that no power of two in the word covers the code shifts by the whole width, which is not
      defined; here that gives zero. */
  method BitCeilByShift(x: Bits) returns (r: nat)
    requires |x| > 0
    ensures r == if ValueOf(x, |x|) <= Pow(|x| - 1) then BitCeil(ValueOf(x, |x|)) else 0
  {
    hide ValueOf, Dec, Shl, Word;
    var n := |x|;
    if ValueOf(x, n) <= 1 {
      PowOrder(0, n);
      return 1;
    }
    DecSize(x);
    var z := CountlZero(Dec(x));
    LeadingZeros(Dec(x), z);
    ghost var v, h := ValueOf(x, n), Length(Dec(x), n);
    LengthOfDec(x);
    OneShifted(n, n - z);
    PowOrder(h, n);
    BitCeilBetween(v, h);
    r := ValueOf(Shl(Word(n, true), n - z), n);
  }

  // ---------------------------------------------------------------- words of bytes

  /** `b` are the bits of the word `x`. */
  ghost predicate BitsOf(x: W.Word, b: Bits) {
    |b| == 8 * |x| && forall i, j :: 0 <= i < |x| && 0 <= j < 8 ==> b[8 * i + j] == x[i].Bit(j)
  }

  lemma EightBits(q: W.Byte)
    ensures q.Bit(0) == q.b0 && q.Bit(1) == q.b1 && q.Bit(2) == q.b2 && q.Bit(3) == q.b3
    ensures q.Bit(4) == q.b4 && q.Bit(5) == q.b5 && q.Bit(6) == q.b6 && q.Bit(7) == q.b7
  {
  }

  lemma BitIs(x: W.Word, b: Bits, i: nat, j: nat)
    requires BitsOf(x, b) && i < |x| && j < 8
    ensures 8 * i + j < |b| && b[8 * i + j] == x[i].Bit(j)
  {
  }

  lemma NextFour(b: Bits, p: nat)
    requires p + 4 <= |b|
    ensures Ones(b, p + 4) == Ones(b, p) + W.I(b[p]) + W.I(b[p + 1]) + W.I(b[p + 2]) + W.I(b[p + 3])
  {
    assert Ones(b, p + 1) == Ones(b, p) + W.I(b[p]);
    assert Ones(b, p + 2) == Ones(b, p + 1) + W.I(b[p + 1]);
    assert Ones(b, p + 3) == Ones(b, p + 2) + W.I(b[p + 2]);
  }

  lemma LowBits(x: W.Word, b: Bits, i: nat)
    requires BitsOf(x, b) && i < |x|
    ensures 8 * i + 4 <= |b| && Ones(b, 8 * i + 4) == Ones(b, 8 * i) + P.LowCount(x[i])
  {
    hide W.Byte.Bit, W.I, BitsOf, Ones;
    BitIs(x, b, i, 0);
    BitIs(x, b, i, 1);
    BitIs(x, b, i, 2);
    BitIs(x, b, i, 3);
    EightBits(x[i]);
    NextFour(b, 8 * i);
  }

  lemma HighBits(x: W.Word, b: Bits, i: nat)
    requires BitsOf(x, b) && i < |x|
    ensures 8 * i + 8 <= |b| && Ones(b, 8 * i + 8) == Ones(b, 8 * i + 4) + P.HighCount(x[i])
  {
    hide W.Byte.Bit, W.I, BitsOf, Ones;
    BitIs(x, b, i, 4);
    BitIs(x, b, i, 5);
    BitIs(x, b, i, 6);
    BitIs(x, b, i, 7);
    EightBits(x[i]);
    NextFour(b, 8 * i + 4);
  }

  lemma OnesOfByte(x: W.Word, b: Bits, i: nat)
    requires BitsOf(x, b) && i < |x|
    ensures 8 * i + 8 <= |b| && Ones(b, 8 * i + 8) == Ones(b, 8 * i) + P.BitCount(x[i])
  {
    hide P.LowCount, P.HighCount, BitsOf, Ones;
    LowBits(x, b, i);
    HighBits(x, b, i);
  }

  lemma {:induction false} OnesOfBytes(x: W.Word, b: Bits, n: nat)
    requires BitsOf(x, b) && n <= |x|
    ensures Ones(b, 8 * n) == P.BitTotal(x, n)
  {
    hide BitsOf, P.BitCount;
    if n > 0 {
      BitsSize(x, b);
      OnesOfBytes(x, b, n - 1);
      OnesOfByte(x, b, n - 1);
    }
  }

  lemma BitsSize(x: W.Word, b: Bits)
    requires BitsOf(x, b)
    ensures |b| == 8 * |x|
  {
  }

  /** The number of ones that the loops above take is what `popcount_fallback` computes. */
  lemma PopcountIsOnes(x: W.Word, b: Bits)
    requires BitsOf(x, b) && 0 < |x| <= 31
    ensures P.PopcountFallback(x) == Ones(b, |b|)
  {
    hide P.PopcountFallback, P.BitTotal;
    P.PopcountCounts(x);
    OnesOfBytes(x, b, |x|);
  }

  lemma DecSize(x: Bits)
    ensures |Dec(x)| == |x|
  {
  }

  lemma IncSize(x: Bits)
    ensures |Inc(x)| == |x|
  {
  }

  lemma {:induction false} NoBitNoValue(x: Bits, n: nat)
    requires n <= |x|
    ensures ValueOf(x, n) == 0 <==> forall q :: 0 <= q < n ==> !x[q]
  {
    if n > 0 { NoBitNoValue(x, n - 1); }
  }

  lemma PowOrder(h: nat, n: nat)
    requires h <= n && n > 0
    ensures h < n ==> Pow(h) <= Pow(n - 1)
    ensures h == n ==> Pow(h - 1) == Pow(n - 1)
    ensures Pow(0) == 1 && (h > 0 ==> Pow(h) >= 2)
  {
    if h < n - 1 { PowMonotone(h, n - 1); }
    if h > 0 { PowMonotone(0, h); }
  }
}
