/** `popcount_fallback` of stdlib_ext.hpp: counting bits in parallel, and adding up the bytes
    with one multiplication. */
module PopCount {
  import opened Pow2
  import opened Words

  const X55 := Byte(true, false, true, false, true, false, true, false)
  const X33 := Byte(true, true, false, false, true, true, false, false)
  const X0F := Byte(true, true, true, true, false, false, false, false)

  function ShiftRight2(w: Word): Word {
    seq(|w|, i requires 0 <= i < |w| =>
      var q := if i == |w| - 1 then ZERO else w[i + 1];
      Byte(w[i].b2, w[i].b3, w[i].b4, w[i].b5, w[i].b6, w[i].b7, q.b0, q.b1))
  }

  function ShiftRight4(w: Word): Word {
    seq(|w|, i requires 0 <= i < |w| =>
      var q := if i == |w| - 1 then ZERO else w[i + 1];
      Byte(w[i].b4, w[i].b5, w[i].b6, w[i].b7, q.b0, q.b1, q.b2, q.b3))
  }

  /** The three statements that count within each byte. */
  function Pairs(x: Word): Word { Sub(x, And(ShiftRight1(x), Fill(|x|, X55))) }

  function Nibbles(x: Word): Word { Add(And(x, Fill(|x|, X33)), And(ShiftRight2(x), Fill(|x|, X33))) }

  function Bytes(x: Word): Word { And(Add(x, ShiftRight4(x)), Fill(|x|, X0F)) }

  /** The multiplication by `lsbs`, modulo 256^n, and the shift that keeps the top byte. */
  function TopByteOfProduct(x: Word): int
    requires |x| > 0
  {
    ValueOf(x, |x|) * ValueOf(Fill(|x|, ONE), |x|) % Radix(|x|) / Radix(|x| - 1)
  }

  function PopcountFallback(x: Word): int
    requires |x| > 0
  {
    TopByteOfProduct(Bytes(Nibbles(Pairs(x))))
  }

  // ---------------------------------------------------------------- within a byte

  function PairByte(b: Byte): Byte {
    Byte(b.b0 != b.b1, b.b0 && b.b1, b.b2 != b.b3, b.b2 && b.b3, b.b4 != b.b5, b.b4 && b.b5, b.b6 != b.b7, b.b6 && b.b7)
  }

  /** Two-bit fields that hold at most two. */
  predicate IsPairs(b: Byte) { !(b.b0 && b.b1) && !(b.b2 && b.b3) && !(b.b4 && b.b5) && !(b.b6 && b.b7) }

  lemma PairSteps(b: Byte, m: Byte)
    requires m == Byte(b.b1, false, b.b3, false, b.b5, false, b.b7, false)
    ensures BorrowBit(b, m, false, 1) == (!b.b0 && b.b1) && !BorrowBit(b, m, false, 2)
    ensures BorrowBit(b, m, false, 3) == (!b.b2 && b.b3) && !BorrowBit(b, m, false, 4)
  {
    assert !BorrowBit(b, m, false, 0);
    assert BorrowBit(b, m, false, 1) == Less(b.b0, b.b1, false);
    assert BorrowBit(b, m, false, 2) == Less(b.b1, false, BorrowBit(b, m, false, 1));
    assert BorrowBit(b, m, false, 3) == Less(b.b2, b.b3, BorrowBit(b, m, false, 2));
    assert BorrowBit(b, m, false, 4) == Less(b.b3, false, BorrowBit(b, m, false, 3));
  }

  lemma PairStepsHigh(b: Byte, m: Byte)
    requires m == Byte(b.b1, false, b.b3, false, b.b5, false, b.b7, false) && !BorrowBit(b, m, false, 4)
    ensures BorrowBit(b, m, false, 5) == (!b.b4 && b.b5) && !BorrowBit(b, m, false, 6)
    ensures BorrowBit(b, m, false, 7) == (!b.b6 && b.b7) && !BorrowBit(b, m, false, 8)
  {
    assert BorrowBit(b, m, false, 5) == Less(b.b4, b.b5, BorrowBit(b, m, false, 4));
    assert BorrowBit(b, m, false, 6) == Less(b.b5, false, BorrowBit(b, m, false, 5));
    assert BorrowBit(b, m, false, 7) == Less(b.b6, b.b7, BorrowBit(b, m, false, 6));
    assert BorrowBit(b, m, false, 8) == Less(b.b7, false, BorrowBit(b, m, false, 7));
  }

  lemma PairsOfByte(b: Byte, m: Byte)
    requires m == Byte(b.b1, false, b.b3, false, b.b5, false, b.b7, false)
    ensures Diff(b, m, false) == PairByte(b) && !BorrowOut(b, m, false)
  {
    hide BorrowBit;
    PairSteps(b, m);
    PairStepsHigh(b, m);
    assert !BorrowBit(b, m, false, 0) by { NoBorrowIn(b, m); }
  }

  lemma NoBorrowIn(b: Byte, m: Byte)
    ensures !BorrowBit(b, m, false, 0) && !CarryBit(b, m, false, 0)
  {
  }

  function NibbleByte(p: Byte): Byte {
    Byte(p.b0 != p.b2, (p.b1 != p.b3) != (p.b0 && p.b2), More(p.b1, p.b3, p.b0 && p.b2), false,
         p.b4 != p.b6, (p.b5 != p.b7) != (p.b4 && p.b6), More(p.b5, p.b7, p.b4 && p.b6), false)
  }

  /** Four-bit fields that hold at most four. */
  predicate IsNibbles(b: Byte) { !b.b3 && !b.b7 && !(b.b2 && (b.b0 || b.b1)) && !(b.b6 && (b.b4 || b.b5)) }

  lemma NibbleSteps(a: Byte, c: Byte)
    requires !a.b2 && !a.b3 && !c.b2 && !c.b3
    ensures CarryBit(a, c, false, 1) == (a.b0 && c.b0) && CarryBit(a, c, false, 2) == More(a.b1, c.b1, a.b0 && c.b0)
    ensures !CarryBit(a, c, false, 3) && !CarryBit(a, c, false, 4)
  {
    assert !CarryBit(a, c, false, 0);
    assert CarryBit(a, c, false, 1) == More(a.b0, c.b0, false);
    assert CarryBit(a, c, false, 2) == More(a.b1, c.b1, CarryBit(a, c, false, 1));
    assert CarryBit(a, c, false, 3) == More(false, false, CarryBit(a, c, false, 2));
    assert CarryBit(a, c, false, 4) == More(false, false, CarryBit(a, c, false, 3));
  }

  lemma NibbleStepsHigh(a: Byte, c: Byte)
    requires !a.b6 && !a.b7 && !c.b6 && !c.b7 && !CarryBit(a, c, false, 4)
    ensures CarryBit(a, c, false, 5) == (a.b4 && c.b4) && CarryBit(a, c, false, 6) == More(a.b5, c.b5, a.b4 && c.b4)
    ensures !CarryBit(a, c, false, 7) && !CarryBit(a, c, false, 8)
  {
    assert CarryBit(a, c, false, 5) == More(a.b4, c.b4, CarryBit(a, c, false, 4));
    assert CarryBit(a, c, false, 6) == More(a.b5, c.b5, CarryBit(a, c, false, 5));
    assert CarryBit(a, c, false, 7) == More(false, false, CarryBit(a, c, false, 6));
    assert CarryBit(a, c, false, 8) == More(false, false, CarryBit(a, c, false, 7));
  }

  lemma NibblesOfByte(p: Byte, a: Byte, c: Byte)
    requires IsPairs(p)
    requires a == Byte(p.b0, p.b1, false, false, p.b4, p.b5, false, false)
             && c == Byte(p.b2, p.b3, false, false, p.b6, p.b7, false, false)
    ensures Sum(a, c, false) == NibbleByte(p) && !CarryOut(a, c, false) && IsNibbles(NibbleByte(p))
  {
    hide CarryBit;
    NibbleSteps(a, c);
    NibbleStepsHigh(a, c);
    NoBorrowIn(a, c);
  }

  function CountByte(s: Byte): Byte {
    var k1 := s.b0 && s.b4;
    var k2 := More(s.b1, s.b5, k1);
    Byte(s.b0 != s.b4, (s.b1 != s.b5) != k1, (s.b2 != s.b6) != k2, More(s.b2, s.b6, k2), false, false, false, false)
  }

  lemma CountSteps(s: Byte, c: Byte)
    requires IsNibbles(s) && c.b0 == s.b4 && c.b1 == s.b5 && c.b2 == s.b6 && !c.b3
    ensures CarryBit(s, c, false, 1) == (s.b0 && s.b4) && CarryBit(s, c, false, 2) == More(s.b1, s.b5, s.b0 && s.b4)
    ensures CarryBit(s, c, false, 3) == More(s.b2, s.b6, CarryBit(s, c, false, 2)) && !CarryBit(s, c, false, 4)
  {
    assert !CarryBit(s, c, false, 0);
    assert CarryBit(s, c, false, 1) == More(s.b0, c.b0, false);
    assert CarryBit(s, c, false, 2) == More(s.b1, c.b1, CarryBit(s, c, false, 1));
    assert CarryBit(s, c, false, 3) == More(s.b2, c.b2, CarryBit(s, c, false, 2));
    assert CarryBit(s, c, false, 4) == More(false, false, CarryBit(s, c, false, 3));
  }

  lemma CountStepsHigh(s: Byte, c: Byte)
    requires IsNibbles(s) && !c.b7 && !CarryBit(s, c, false, 4)
    ensures !CarryBit(s, c, false, 8)
  {
    assert CarryBit(s, c, false, 8) == More(s.b7, c.b7, CarryBit(s, c, false, 7));
  }

  lemma KeepLow(d: Byte)
    ensures d.And(X0F) == Byte(d.b0, d.b1, d.b2, d.b3, false, false, false, false)
  {
  }

  lemma CountOfByte(s: Byte, c: Byte)
    requires IsNibbles(s) && c.b0 == s.b4 && c.b1 == s.b5 && c.b2 == s.b6 && !c.b3 && !c.b7
    ensures Sum(s, c, false).And(X0F) == CountByte(s) && !CarryOut(s, c, false)
  {
    hide CarryBit, More, Sum;
    CountSteps(s, c);
    CountStepsHigh(s, c);
    NoBorrowIn(s, c);
    SumBit(s, c, false, 0);
    SumBit(s, c, false, 1);
    SumBit(s, c, false, 2);
    SumBit(s, c, false, 3);
    KeepLow(Sum(s, c, false));
  }

  /** The number of bits of a byte. */
  function BitCount(b: Byte): nat { LowCount(b) + HighCount(b) }

  function LowCount(b: Byte): nat { I(b.b0) + I(b.b1) + I(b.b2) + I(b.b3) }

  function HighCount(b: Byte): nat { I(b.b4) + I(b.b5) + I(b.b6) + I(b.b7) }

  /** The numbers in the nibbles, up to seven. */
  function LowNumber(s: Byte): nat { I(s.b0) + 2 * I(s.b1) + 4 * I(s.b2) }

  function HighNumber(s: Byte): nat { I(s.b4) + 2 * I(s.b5) + 4 * I(s.b6) }

  /** Pairs hold the counts of pairs, nibbles those of nibbles, bytes those of bytes. */
  lemma CountIsBits(b: Byte)
    ensures IsPairs(PairByte(b)) && IsNibbles(NibbleByte(PairByte(b)))
    ensures CountByte(NibbleByte(PairByte(b))).Value() == BitCount(b)
  {
    hide CountByte, Byte.Value, PairByte, NibbleByte, NibbleOf, IsPairs, IsNibbles, LowCount, HighCount, LowNumber,
      HighNumber;
    PairFacts(b);
    LowCounts(b, NibbleByte(PairByte(b)));
    HighCounts(b, NibbleByte(PairByte(b)));
    ByteCount(NibbleByte(PairByte(b)));
  }

  lemma LowCounts(b: Byte, s: Byte)
    requires NibbleOf(b.b0, b.b1, b.b2, b.b3, s.b0, s.b1, s.b2)
    ensures LowNumber(s) == LowCount(b)
  {
  }

  lemma HighCounts(b: Byte, s: Byte)
    requires NibbleOf(b.b4, b.b5, b.b6, b.b7, s.b4, s.b5, s.b6)
    ensures HighNumber(s) == HighCount(b)
  {
  }

  lemma PairFacts(b: Byte)
    ensures IsPairs(PairByte(b)) && IsNibbles(NibbleByte(PairByte(b)))
    ensures var s := NibbleByte(PairByte(b));
      NibbleOf(b.b0, b.b1, b.b2, b.b3, s.b0, s.b1, s.b2) && NibbleOf(b.b4, b.b5, b.b6, b.b7, s.b4, s.b5, s.b6)
  {
  }

  /** The three bits of a nibble count, from the two pair counts. */
  predicate NibbleOf(a: bool, b: bool, c: bool, d: bool, x0: bool, x1: bool, x2: bool) {
    var k := (a != b) && (c != d);
    x0 == ((a != b) != (c != d)) && x1 == (((a && b) != (c && d)) != k) && x2 == More(a && b, c && d, k)
  }

  predicate ByteOf(s: Byte, d: Byte) {
    var k1 := s.b0 && s.b4;
    var k2 := More(s.b1, s.b5, k1);
    && d.b0 == (s.b0 != s.b4) && d.b1 == ((s.b1 != s.b5) != k1) && d.b2 == ((s.b2 != s.b6) != k2)
    && d.b3 == More(s.b2, s.b6, k2)
    && !d.b4 && !d.b5 && !d.b6 && !d.b7
  }

  lemma ByteAdder(s: Byte, d: Byte)
    requires ByteOf(s, d)
    ensures I(d.b0) + 2 * I(d.b1) + 4 * I(d.b2) + 8 * I(d.b3) == I(s.b0) + 2 * I(s.b1) + 4 * I(s.b2) + I(s.b4)
            + 2 * I(s.b5) + 4 * I(s.b6)
  {
  }

  lemma ByteCount(s: Byte)
    ensures CountByte(s).Value() == LowNumber(s) + HighNumber(s)
  {
    hide I, Byte.Value, CountByte, ByteOf;
    CountIsByteOf(s);
    ByteAdder(s, CountByte(s));
    LowNibble(CountByte(s));
  }

  lemma CountIsByteOf(s: Byte)
    ensures var d := CountByte(s); ByteOf(s, d) && !d.b4 && !d.b5 && !d.b6 && !d.b7
  {
    hide More;
  }

  lemma LowNibble(d: Byte)
    requires !d.b4 && !d.b5 && !d.b6 && !d.b7
    ensures d.Value() == I(d.b0) + 2 * I(d.b1) + 4 * I(d.b2) + 8 * I(d.b3)
  {
    Steps(d);
  }

  // ---------------------------------------------------------------- words

  lemma {:induction false} NoBorrowBetween(x: Word, i: nat)
    requires i <= |x|
    ensures |And(ShiftRight1(x), Fill(|x|, X55))| == |x| && !BorrowInto(x, And(ShiftRight1(x), Fill(|x|, X55)), i)
  {
    hide BorrowOut;
    if i > 0 {
      NoBorrowBetween(x, i - 1);
      PairsOfByte(x[i - 1], And(ShiftRight1(x), Fill(|x|, X55))[i - 1]);
    }
  }

  lemma PairsAt(x: Word, i: nat)
    requires i < |x|
    ensures |Pairs(x)| == |x| && Pairs(x)[i] == PairByte(x[i])
  {
    hide BorrowOut, Diff, BorrowInto;
    NoBorrowBetween(x, i);
    PairsOfByte(x[i], And(ShiftRight1(x), Fill(|x|, X55))[i]);
  }

  lemma NibbleOperands(p: Word, i: nat)
    requires i < |p|
    ensures |And(p, Fill(|p|, X33))| == |And(ShiftRight2(p), Fill(|p|, X33))| == |p|
    ensures And(p, Fill(|p|, X33))[i] == Byte(p[i].b0, p[i].b1, false, false, p[i].b4, p[i].b5, false, false)
    ensures And(ShiftRight2(p), Fill(|p|, X33))[i]
            == Byte(p[i].b2, p[i].b3, false, false, p[i].b6, p[i].b7, false, false)
  {
  }

  lemma {:induction false} NoCarryBetween(p: Word, i: nat)
    requires i <= |p| && forall j :: 0 <= j < |p| ==> IsPairs(p[j])
    ensures |And(p, Fill(|p|, X33))| == |And(ShiftRight2(p), Fill(|p|, X33))| == |p|
    ensures !CarryInto(And(p, Fill(|p|, X33)), And(ShiftRight2(p), Fill(|p|, X33)), i)
  {
    hide CarryOut, IsPairs, NibbleByte, IsNibbles, Sum;
    if i > 0 {
      NoCarryBetween(p, i - 1);
      NibbleOperands(p, i - 1);
      NibblesOfByte(p[i - 1], And(p, Fill(|p|, X33))[i - 1], And(ShiftRight2(p), Fill(|p|, X33))[i - 1]);
    }
  }

  lemma NibblesAt(p: Word, i: nat)
    requires i < |p| && forall j :: 0 <= j < |p| ==> IsPairs(p[j])
    ensures |Nibbles(p)| == |p| && Nibbles(p)[i] == NibbleByte(p[i])
  {
    hide CarryOut, Sum, CarryInto, NibbleByte;
    NoCarryBetween(p, i);
    NibbleOperands(p, i);
    NibblesOfByte(p[i], And(p, Fill(|p|, X33))[i], And(ShiftRight2(p), Fill(|p|, X33))[i]);
  }

  lemma ByteOperand(s: Word, i: nat)
    requires i < |s| && forall j :: 0 <= j < |s| ==> IsNibbles(s[j])
    ensures |ShiftRight4(s)| == |s|
    ensures var c := ShiftRight4(s)[i]; c.b0 == s[i].b4 && c.b1 == s[i].b5 && c.b2 == s[i].b6 && !c.b3 && !c.b7
  {
    assert i + 1 < |s| ==> IsNibbles(s[i + 1]);
  }

  lemma {:induction false} NoCarryIntoByte(s: Word, i: nat)
    requires i <= |s| && forall j :: 0 <= j < |s| ==> IsNibbles(s[j])
    ensures |ShiftRight4(s)| == |s| && !CarryInto(s, ShiftRight4(s), i)
  {
    hide CarryOut, IsNibbles;
    if i > 0 {
      NoCarryIntoByte(s, i - 1);
      ByteOperand(s, i - 1);
      CountOfByte(s[i - 1], ShiftRight4(s)[i - 1]);
    }
  }

  lemma BytesAt(s: Word, i: nat)
    requires i < |s| && forall j :: 0 <= j < |s| ==> IsNibbles(s[j])
    ensures |Bytes(s)| == |s| && Bytes(s)[i] == CountByte(s[i])
  {
    hide CarryOut, Sum, CarryInto, CountByte, IsNibbles;
    NoCarryIntoByte(s, i);
    ByteOperand(s, i);
    CountOfByte(s[i], ShiftRight4(s)[i]);
  }

  /** After the three statements every byte holds its own number of bits. */
  lemma BytesCount(x: Word)
    ensures |Bytes(Nibbles(Pairs(x)))| == |x|
    ensures forall i :: 0 <= i < |x| ==> Bytes(Nibbles(Pairs(x)))[i].Value() == BitCount(x[i])
  {
    hide Pairs, Nibbles, Bytes, PairByte, NibbleByte, CountByte, IsPairs, IsNibbles, BitCount, Byte.Value;
    var p := Pairs(x);
    PairsSize(x);
    forall i | 0 <= i < |x| ensures p[i] == PairByte(x[i]) && IsPairs(p[i]) {
      PairsAt(x, i);
      CountIsBits(x[i]);
    }
    var s := Nibbles(p);
    NibblesSize(p);
    forall i | 0 <= i < |x| ensures s[i] == NibbleByte(p[i]) && IsNibbles(s[i]) {
      NibblesAt(p, i);
      CountIsBits(x[i]);
    }
    BytesSize(s);
    forall i | 0 <= i < |x| ensures Bytes(s)[i].Value() == BitCount(x[i]) {
      BytesAt(s, i);
      CountIsBits(x[i]);
    }
  }

  lemma PairsSize(x: Word)
    ensures |Pairs(x)| == |x|
  {
  }

  lemma NibblesSize(x: Word)
    ensures |Nibbles(x)| == |x|
  {
  }

  lemma BytesSize(x: Word)
    ensures |Bytes(x)| == |x|
  {
  }

  // ---------------------------------------------------------------- adding up the bytes

  /** The sum of the lowest `n` bytes. */
  function DigitSum(w: Word, n: nat): nat
    requires n <= |w|
  {
    if n == 0 then 0 else DigitSum(w, n - 1) + w[n - 1].Value()
  }

  /** 1 + 256 + ... : the value of `lsbs`. */
  function Ones(n: nat): nat { if n == 0 then 0 else Ones(n - 1) + Radix(n - 1) }

  lemma {:induction false} RadixOnes(n: nat)
    ensures Radix(n) == 255 * Ones(n) + 1
  {
    if n > 0 { RadixOnes(n - 1); }
  }

  lemma {:induction false} LsbsAreOnes(n: nat, m: nat)
    requires m <= n
    ensures ValueOf(Fill(n, ONE), m) == Ones(m)
  {
    hide Byte.Value;
    if m > 0 {
      LsbsAreOnes(n, m - 1);
      OneIsOne();
    }
  }

  /** The number whose digits are the running sums. */
  function Running(w: Word, n: nat): nat
    requires n <= |w|
  {
    if n == 0 then 0 else Running(w, n - 1) + Radix(n - 1) * DigitSum(w, n)
  }

  /** What is left after casting out 255s. */
  function Carried(w: Word, n: nat): nat
    requires n <= |w|
  {
    if n == 0 then 0 else Carried(w, n - 1) + Ones(n - 1) * w[n - 1].Value()
  }

  lemma {:induction false} CastOut(w: Word, n: nat)
    requires n <= |w|
    ensures ValueOf(w, n) == DigitSum(w, n) + 255 * Carried(w, n)
  {
    hide Byte.Value;
    if n > 0 {
      CastOut(w, n - 1);
      RadixOnes(n - 1);
      Spill(Ones(n - 1), w[n - 1].Value());
    }
  }

  lemma Spill(o: int, v: int)
    ensures (255 * o + 1) * v == 255 * (o * v) + v
  {
  }

  lemma {:induction false} RunningTimes(w: Word, n: nat)
    requires n <= |w|
    ensures 255 * Running(w, n) == Radix(n) * DigitSum(w, n) - ValueOf(w, n)
  {
    hide Byte.Value;
    if n > 0 {
      RunningTimes(w, n - 1);
      Telescope(Radix(n - 1), DigitSum(w, n - 1), w[n - 1].Value());
    }
  }

  lemma Telescope(r: int, s: int, v: int)
    ensures r * s + 255 * (r * (s + v)) == (256 * r) * (s + v) - r * v
  {
    assert r * (s + v) == r * s + r * v;
    assert (256 * r) * (s + v) == 256 * (r * (s + v));
  }

  /** The product with `lsbs`, split at the top of the word. */
  lemma ProductIs(w: Word, n: nat)
    requires n <= |w|
    ensures ValueOf(w, n) * Ones(n) == Running(w, n) + Radix(n) * Carried(w, n)
  {
    hide ValueOf, Ones, Radix, Running, Carried, DigitSum;
    CastOut(w, n);
    RunningTimes(w, n);
    RadixOnes(n);
    Divide255(ValueOf(w, n), Ones(n), Radix(n), DigitSum(w, n), Carried(w, n), Running(w, n));
  }

  lemma Divide255(v: int, o: int, r: int, s: int, c: int, p: int)
    requires r == 255 * o + 1 && v == s + 255 * c && 255 * p == r * s - v
    ensures v * o == p + r * c
  {
    assert r * v == r * s + 255 * (r * c);
    assert r * v == 255 * (v * o) + v;
  }

  lemma {:induction false} SumsGrow(w: Word, m: nat, n: nat)
    requires m <= n <= |w|
    ensures DigitSum(w, m) <= DigitSum(w, n)
    decreases n
  {
    if m < n { SumsGrow(w, m, n - 1); }
  }

  lemma {:induction false} RunningBelow(w: Word, n: nat)
    requires n <= |w| && DigitSum(w, n) < 256
    ensures Running(w, n) < Radix(n)
  {
    hide Byte.Value;
    if n > 0 {
      SumsGrow(w, n - 1, n);
      RunningBelow(w, n - 1);
      TopByte(Radix(n - 1), DigitSum(w, n), Running(w, n - 1));
    }
  }

  /** The top byte of the product is the sum of the bytes, as long as that fits in a byte. */
  lemma TopByteIsSum(w: Word)
    requires |w| > 0 && DigitSum(w, |w|) < 256
    ensures TopByteOfProduct(w) == DigitSum(w, |w|)
  {
    hide ValueOf, Ones, Radix, Carried, DigitSum;
    var n := |w|;
    LsbsAreOnes(n, n);
    ProductIs(w, n);
    RunningBelow(w, n);
    SplitTop(w, n);
    DivMod(ValueOf(w, n) * Ones(n), Radix(n), Carried(w, n), Running(w, n));
  }

  lemma SplitTop(w: Word, n: nat)
    requires 0 < n <= |w| && DigitSum(w, n) < 256
    ensures Running(w, n) / Radix(n - 1) == DigitSum(w, n)
  {
    SumsGrow(w, n - 1, n);
    RunningBelow(w, n - 1);
    DivMod(Running(w, n), Radix(n - 1), DigitSum(w, n), Running(w, n - 1));
  }

  /** The number of bits of a word. */
  function BitTotal(x: Word, n: nat): nat
    requires n <= |x|
  {
    if n == 0 then 0 else BitTotal(x, n - 1) + BitCount(x[n - 1])
  }

  lemma {:induction false} SumIsTotal(x: Word, w: Word, n: nat)
    requires |w| == |x| && n <= |x| && forall i :: 0 <= i < |x| ==> w[i].Value() == BitCount(x[i])
    ensures DigitSum(w, n) == BitTotal(x, n)
  {
    hide Byte.Value, BitCount;
    if n > 0 { SumIsTotal(x, w, n - 1); }
  }

  lemma {:induction false} AtMostEight(x: Word, n: nat)
    requires n <= |x|
    ensures BitTotal(x, n) <= 8 * n
  {
    if n > 0 { AtMostEight(x, n - 1); }
  }

  /** For words of up to 31 bytes the result is the number of bits that are set. */
  lemma PopcountCounts(x: Word)
    requires 0 < |x| <= 31
    ensures PopcountFallback(x) == BitTotal(x, |x|)
  {
    hide Pairs, Nibbles, Bytes, TopByteOfProduct, BitCount, Byte.Value;
    var w := Bytes(Nibbles(Pairs(x)));
    BytesCount(x);
    SumIsTotal(x, w, |x|);
    AtMostEight(x, |x|);
    TopByteIsSum(w);
  }
}
