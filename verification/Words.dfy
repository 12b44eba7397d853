/** Machine words of any number of bytes, least significant byte first, with the operations
    that the word-parallel kernels use.

    Bytes are kept as eight bits.  Addition and subtraction ripple a carry or borrow from
    byte to byte; that they are arithmetic modulo 256^n is proved, as is that the two
    multiplications the kernels perform do not overflow from one byte into the next. */
module Words {
  import opened Pow2

  function I(b: bool): nat { if b then 1 else 0 }

  function Weight(b: bool, p: nat): nat { if b then p else 0 }

  datatype Byte = Byte(b0: bool, b1: bool, b2: bool, b3: bool, b4: bool, b5: bool, b6: bool, b7: bool) {
    predicate Bit(i: nat) {
      match i
      case 0 => b0
      case 1 => b1
      case 2 => b2
      case 3 => b3
      case 4 => b4
      case 5 => b5
      case 6 => b6
      case 7 => b7
      case _ => false
    }

    /** The number in the lowest `n` bits. */
    function Low(n: nat): (v: nat)
      ensures v < Pow(n)
    {
      if n == 0 then 0 else Low(n - 1) + Weight(Bit(n - 1), Pow(n - 1))
    }

    function Value(): (v: nat) { Low(8) }

    /** As a two's complement number. */
    function Signed(): int { if b7 then Value() - 256 else Value() }

    function Not(): Byte { Byte(!b0, !b1, !b2, !b3, !b4, !b5, !b6, !b7) }

    function And(o: Byte): Byte {
      Byte(b0 && o.b0, b1 && o.b1, b2 && o.b2, b3 && o.b3, b4 && o.b4, b5 && o.b5, b6 && o.b6, b7 && o.b7)
    }

    function Or(o: Byte): Byte {
      Byte(b0 || o.b0, b1 || o.b1, b2 || o.b2, b3 || o.b3, b4 || o.b4, b5 || o.b5, b6 || o.b6, b7 || o.b7)
    }

    function Xor(o: Byte): Byte {
      Byte(b0 != o.b0, b1 != o.b1, b2 != o.b2, b3 != o.b3, b4 != o.b4, b5 != o.b5, b6 != o.b6, b7 != o.b7)
    }
  }

  const ZERO := Byte(false, false, false, false, false, false, false, false)
  const ONE := Byte(true, false, false, false, false, false, false, false)
  const MSB := Byte(false, false, false, false, false, false, false, true)
  const ONES := Byte(true, true, true, true, true, true, true, true)

  predicate Odd(x: nat) { x % 2 == 1 }

  function Half(x: nat): nat { x / 2 }

  function Digits(x: nat): Byte {
    var x1 := Half(x);
    var x2 := Half(x1);
    var x3 := Half(x2);
    var x4 := Half(x3);
    var x5 := Half(x4);
    var x6 := Half(x5);
    Byte(Odd(x), Odd(x1), Odd(x2), Odd(x3), Odd(x4), Odd(x5), Odd(x6), Odd(Half(x6)))
  }

  /** The byte of a number between -128 and 255. */
  function ToByte(s: int): Byte { Digits(s % 256) }

  function HalfTimes(x: nat, n: nat): nat { if n == 0 then x else Half(HalfTimes(x, n - 1)) }

  lemma DigitAt(x: nat, i: nat)
    requires i < 8
    ensures Digits(x).Bit(i) == Odd(HalfTimes(x, i))
  {
    hide Odd, Half;
    assert HalfTimes(x, 1) == Half(x);
    assert HalfTimes(x, 2) == Half(HalfTimes(x, 1));
    assert HalfTimes(x, 3) == Half(HalfTimes(x, 2));
    assert HalfTimes(x, 4) == Half(HalfTimes(x, 3));
    assert HalfTimes(x, 5) == Half(HalfTimes(x, 4));
    assert HalfTimes(x, 6) == Half(HalfTimes(x, 5));
    assert HalfTimes(x, 7) == Half(HalfTimes(x, 6));
  }

  lemma {:induction false} LowDigits(x: nat, n: nat)
    requires n <= 8
    ensures Digits(x).Low(n) + Pow(n) * HalfTimes(x, n) == x
  {
    hide Digits;
    if n > 0 {
      LowDigits(x, n - 1);
      DigitAt(x, n - 1);
      var h := HalfTimes(x, n - 1);
      assert h == 2 * Half(h) + I(Odd(h));
      Spread2(Pow(n - 1), h, Half(h), I(Odd(h)));
    }
  }

  lemma Spread2(r: int, h: int, half: int, bit: int)
    requires h == 2 * half + bit
    ensures r * h == (2 * r) * half + r * bit
  {
  }

  lemma {:induction false} HalvesShrink(x: nat, n: nat)
    requires x < Pow(n)
    ensures HalfTimes(x, n) == 0
  {
    HalvesBelow(x, n, 0);
  }

  lemma {:induction false} HalvesBelow(x: nat, n: nat, m: nat)
    requires x < Pow(n + m)
    ensures HalfTimes(x, n) < Pow(m)
    decreases n
  {
    if n > 0 { HalvesBelow(x, n - 1, m + 1); }
  }

  lemma PowEight()
    ensures Pow(8) == 256 && Pow(7) == 128 && Pow(6) == 64 && Pow(5) == 32 && Pow(4) == 16 && Pow(3) == 8 && Pow(2) == 4
            && Pow(1) == 2
  {
    assert Pow(1) == 2;
    assert Pow(2) == 4;
    assert Pow(3) == 8;
    assert Pow(4) == 16;
    assert Pow(5) == 32;
    assert Pow(6) == 64;
  }

  lemma DigitsValue(x: nat)
    requires x < 256
    ensures Digits(x).Value() == x
  {
    hide Digits;
    PowEight();
    LowDigits(x, 8);
    HalvesShrink(x, 8);
  }

  lemma ValueBound(b: Byte)
    ensures b.Value() < 256 && (b.Value() >= 128 <==> b.b7)
  {
    PowEight();
    assert b.Bit(7) == b.b7;
    assert b.Low(8) == b.Low(7) + if b.Bit(7) then Pow(7) else 0;
  }

  lemma SignedByte(s: int)
    requires -128 <= s < 128
    ensures ToByte(s).Signed() == s
  {
    hide Digits, Byte.Value;
    DigitsValue(s % 256);
    ValueBound(ToByte(s));
  }

  lemma SameByte(s: int, t: int)
    requires -128 <= s < 128 && -128 <= t < 128
    ensures ToByte(s) == ToByte(t) <==> s == t
  {
    SignedByte(s);
    SignedByte(t);
  }

  // ---------------------------------------------------------------- ripple arithmetic

  predicate Less(a: bool, b: bool, borrow: bool) { (!a && b) || (a == b && borrow) }

  predicate More(a: bool, b: bool, carry: bool) { (a && b) || (a != b && carry) }

  /** The borrow into bit `i`. */
  predicate BorrowBit(a: Byte, b: Byte, c: bool, i: nat) {
    if i == 0 then c else Less(a.Bit(i - 1), b.Bit(i - 1), BorrowBit(a, b, c, i - 1))
  }

  predicate BorrowOut(a: Byte, b: Byte, c: bool) { BorrowBit(a, b, c, 8) }

  predicate DiffAt(a: Byte, b: Byte, c: bool, i: nat) { (a.Bit(i) != b.Bit(i)) != BorrowBit(a, b, c, i) }

  function Diff(a: Byte, b: Byte, c: bool): Byte {
    Byte(DiffAt(a, b, c, 0), DiffAt(a, b, c, 1), DiffAt(a, b, c, 2), DiffAt(a, b, c, 3),
         DiffAt(a, b, c, 4), DiffAt(a, b, c, 5), DiffAt(a, b, c, 6), DiffAt(a, b, c, 7))
  }

  lemma DiffBit(a: Byte, b: Byte, c: bool, i: nat)
    requires i < 8
    ensures Diff(a, b, c).Bit(i) == DiffAt(a, b, c, i)
  {
    hide DiffAt;
  }

  lemma LessBit(p: nat, x: bool, y: bool, c: bool, d: bool, out: bool)
    requires d == ((x != y) != c) && out == Less(x, y, c)
    ensures Weight(d, p) == Weight(x, p) - Weight(y, p) - Weight(c, p) + Weight(out, 2 * p)
  {
  }

  lemma WeightOne(b: bool)
    ensures Weight(b, 1) == I(b)
  {
  }

  lemma NextLow(b: Byte, n: nat)
    ensures b.Low(n) == if n == 0 then 0 else b.Low(n - 1) + Weight(b.Bit(n - 1), Pow(n - 1))
  {
  }

  lemma {:induction false} DiffLow(a: Byte, b: Byte, c: bool, n: nat)
    requires n <= 8
    ensures Diff(a, b, c).Low(n) == a.Low(n) - b.Low(n) - I(c) + Weight(BorrowBit(a, b, c, n), Pow(n))
  {
    hide Diff, Less, Byte.Bit, Byte.Low, Weight, I;
    WeightOne(c);
    NextLow(a, n);
    NextLow(b, n);
    NextLow(Diff(a, b, c), n);
    if n > 0 {
      DiffLow(a, b, c, n - 1);
      DiffBit(a, b, c, n - 1);
      LessBit(Pow(n - 1), a.Bit(n - 1), b.Bit(n - 1), BorrowBit(a, b, c, n - 1), Diff(a, b, c).Bit(n - 1),
        BorrowBit(a, b, c, n));
    }
  }

  lemma DiffValue(a: Byte, b: Byte, c: bool)
    ensures Diff(a, b, c).Value() == a.Value() - b.Value() - I(c) + 256 * I(BorrowOut(a, b, c))
  {
    hide Diff, BorrowBit, Byte.Low;
    PowEight();
    DiffLow(a, b, c, 8);
  }

  /** The carry into bit `i`. */
  predicate CarryBit(a: Byte, b: Byte, c: bool, i: nat) {
    if i == 0 then c else More(a.Bit(i - 1), b.Bit(i - 1), CarryBit(a, b, c, i - 1))
  }

  predicate CarryOut(a: Byte, b: Byte, c: bool) { CarryBit(a, b, c, 8) }

  predicate SumAt(a: Byte, b: Byte, c: bool, i: nat) { (a.Bit(i) != b.Bit(i)) != CarryBit(a, b, c, i) }

  function Sum(a: Byte, b: Byte, c: bool): Byte {
    Byte(SumAt(a, b, c, 0), SumAt(a, b, c, 1), SumAt(a, b, c, 2), SumAt(a, b, c, 3),
         SumAt(a, b, c, 4), SumAt(a, b, c, 5), SumAt(a, b, c, 6), SumAt(a, b, c, 7))
  }

  lemma SumBit(a: Byte, b: Byte, c: bool, i: nat)
    requires i < 8
    ensures Sum(a, b, c).Bit(i) == SumAt(a, b, c, i)
  {
    hide SumAt;
  }

  lemma MoreBit(p: nat, x: bool, y: bool, c: bool, d: bool, out: bool)
    requires d == ((x != y) != c) && out == More(x, y, c)
    ensures Weight(d, p) == Weight(x, p) + Weight(y, p) + Weight(c, p) - Weight(out, 2 * p)
  {
  }

  lemma {:induction false} SumLow(a: Byte, b: Byte, c: bool, n: nat)
    requires n <= 8
    ensures Sum(a, b, c).Low(n) == a.Low(n) + b.Low(n) + I(c) - Weight(CarryBit(a, b, c, n), Pow(n))
  {
    hide Sum, More, Byte.Bit, Byte.Low, Weight, I;
    WeightOne(c);
    NextLow(a, n);
    NextLow(b, n);
    NextLow(Sum(a, b, c), n);
    if n > 0 {
      SumLow(a, b, c, n - 1);
      SumBit(a, b, c, n - 1);
      MoreBit(Pow(n - 1), a.Bit(n - 1), b.Bit(n - 1), CarryBit(a, b, c, n - 1), Sum(a, b, c).Bit(n - 1),
        CarryBit(a, b, c, n));
    }
  }

  lemma SumValue(a: Byte, b: Byte, c: bool)
    ensures Sum(a, b, c).Value() == a.Value() + b.Value() + I(c) - 256 * I(CarryOut(a, b, c))
  {
    hide Sum, CarryBit, Byte.Low;
    PowEight();
    SumLow(a, b, c, 8);
  }

  // ---------------------------------------------------------------- words

  type Word = seq<Byte>

  /** `broadcast`: the same byte everywhere. */
  function Fill(n: nat, b: Byte): Word { seq(n, _ => b) }

  function Not(w: Word): Word { seq(|w|, i requires 0 <= i < |w| => w[i].Not()) }

  function And(v: Word, w: Word): Word
    requires |v| == |w|
  {
    seq(|v|, i requires 0 <= i < |v| => v[i].And(w[i]))
  }

  function Or(v: Word, w: Word): Word
    requires |v| == |w|
  {
    seq(|v|, i requires 0 <= i < |v| => v[i].Or(w[i]))
  }

  function Xor(v: Word, w: Word): Word
    requires |v| == |w|
  {
    seq(|v|, i requires 0 <= i < |v| => v[i].Xor(w[i]))
  }

  /** The borrow into byte `i`. */
  predicate BorrowInto(v: Word, w: Word, i: nat)
    requires |v| == |w| && i <= |v|
  {
    i > 0 && BorrowOut(v[i - 1], w[i - 1], BorrowInto(v, w, i - 1))
  }

  function Sub(v: Word, w: Word): Word
    requires |v| == |w|
  {
    seq(|v|, i requires 0 <= i < |v| => Diff(v[i], w[i], BorrowInto(v, w, i)))
  }

  predicate CarryInto(v: Word, w: Word, i: nat)
    requires |v| == |w| && i <= |v|
  {
    i > 0 && CarryOut(v[i - 1], w[i - 1], CarryInto(v, w, i - 1))
  }

  function Add(v: Word, w: Word): Word
    requires |v| == |w|
  {
    seq(|v|, i requires 0 <= i < |v| => Sum(v[i], w[i], CarryInto(v, w, i)))
  }

  /** Shifts; bits move from one byte to the next. */
  function ShiftLeft7(w: Word): Word {
    seq(|w|, i requires 0 <= i < |w| =>
      var p := if i == 0 then ZERO else w[i - 1];
      Byte(p.b1, p.b2, p.b3, p.b4, p.b5, p.b6, p.b7, w[i].b0))
  }

  function ShiftRight7(w: Word): Word {
    seq(|w|, i requires 0 <= i < |w| =>
      var q := if i == |w| - 1 then ZERO else w[i + 1];
      Byte(w[i].b7, q.b0, q.b1, q.b2, q.b3, q.b4, q.b5, q.b6))
  }

  function ShiftRight1(w: Word): Word {
    seq(|w|, i requires 0 <= i < |w| =>
      var q := if i == |w| - 1 then ZERO else w[i + 1];
      Byte(w[i].b1, w[i].b2, w[i].b3, w[i].b4, w[i].b5, w[i].b6, w[i].b7, q.b0))
  }

  /** The number one, shifted to byte `i`. */
  function OneAt(n: nat, i: nat): Word {
    seq(n, j => if j == i then ONE else ZERO)
  }

  // ---------------------------------------------------------------- what the words stand for

  function Radix(n: nat): (r: nat)
    ensures r >= 1
  {
    if n == 0 then 1 else 256 * Radix(n - 1)
  }

  /** The number in the lowest `n` bytes. */
  function ValueOf(w: Word, n: nat): nat
    requires n <= |w|
  {
    if n == 0 then 0 else ValueOf(w, n - 1) + Radix(n - 1) * w[n - 1].Value()
  }

  lemma TopByte(r: nat, v: nat, low: nat)
    requires low < r && v < 256
    ensures low + r * v < 256 * r
  {
    if v < 255 { AtLeastOnce(r, 255 - v); }
    assert r * (255 - v) == r * 255 - r * v;
  }

  lemma {:induction false} ValueBelow(w: Word, n: nat)
    requires n <= |w|
    ensures ValueOf(w, n) < Radix(n)
  {
    if n > 0 {
      ValueBelow(w, n - 1);
      TopByte(Radix(n - 1), w[n - 1].Value(), ValueOf(w, n - 1));
    }
  }

  lemma Spread(r: int, x: int, y: int, c: int, d: int)
    ensures r * (x - y - c + 256 * d) == r * x - r * y - r * c + (256 * r) * d
    ensures r * (x + y + c - 256 * d) == r * x + r * y + r * c - (256 * r) * d
  {
  }

  lemma {:induction false} SubPrefix(v: Word, w: Word, n: nat)
    requires |v| == |w| && n <= |v|
    ensures ValueOf(Sub(v, w), n) == ValueOf(v, n) - ValueOf(w, n) + Radix(n) * I(BorrowInto(v, w, n))
  {
    hide BorrowOut, Diff, Byte.Value;
    if n > 0 {
      SubPrefix(v, w, n - 1);
      var c := BorrowInto(v, w, n - 1);
      DiffValue(v[n - 1], w[n - 1], c);
      Spread(Radix(n - 1), v[n - 1].Value(), w[n - 1].Value(), I(c), I(BorrowInto(v, w, n)));
    }
  }

  lemma {:induction false} AddPrefix(v: Word, w: Word, n: nat)
    requires |v| == |w| && n <= |v|
    ensures ValueOf(Add(v, w), n) == ValueOf(v, n) + ValueOf(w, n) - Radix(n) * I(CarryInto(v, w, n))
  {
    hide CarryOut, Sum, Byte.Value;
    if n > 0 {
      AddPrefix(v, w, n - 1);
      var c := CarryInto(v, w, n - 1);
      SumValue(v[n - 1], w[n - 1], c);
      Spread(Radix(n - 1), v[n - 1].Value(), w[n - 1].Value(), I(c), I(CarryInto(v, w, n)));
    }
  }

  lemma ModOnce(x: int, d: int, b: bool)
    requires 0 <= x < d
    ensures (x - d * I(b)) % d == x && (x + d * I(b)) % d == x
  {
    DivMod(x - d * I(b), d, if b then -1 else 0, x);
    DivMod(x + d * I(b), d, I(b), x);
  }

  /** Subtraction and addition are those of the machine: modulo 256^n. */
  lemma SubIsModular(v: Word, w: Word)
    requires |v| == |w|
    ensures ValueOf(Sub(v, w), |v|) == (ValueOf(v, |v|) - ValueOf(w, |v|)) % Radix(|v|)
  {
    SubPrefix(v, w, |v|);
    ValueBelow(Sub(v, w), |v|);
    ModOnce(ValueOf(Sub(v, w), |v|), Radix(|v|), BorrowInto(v, w, |v|));
  }

  lemma AddIsModular(v: Word, w: Word)
    requires |v| == |w|
    ensures ValueOf(Add(v, w), |v|) == (ValueOf(v, |v|) + ValueOf(w, |v|)) % Radix(|v|)
  {
    AddPrefix(v, w, |v|);
    ValueBelow(Add(v, w), |v|);
    ModOnce(ValueOf(Add(v, w), |v|), Radix(|v|), CarryInto(v, w, |v|));
  }

  lemma Times(a: int, r: int, x: int, y: int)
    ensures (a + r * x) * y == a * y + r * (x * y)
  {
  }

  /** `lsbs * s` is `s` in every byte. */
  lemma {:induction false} BroadcastIsProduct(n: nat, s: Byte, m: nat)
    requires m <= n
    ensures ValueOf(Fill(n, s), m) == ValueOf(Fill(n, ONE), m) * s.Value()
  {
    hide Byte.Value;
    if m > 0 {
      BroadcastIsProduct(n, s, m - 1);
      OneIsOne();
      Times(ValueOf(Fill(n, ONE), m - 1), Radix(m - 1), 1, s.Value());
    }
  }

  lemma OneIsOne()
    ensures ONE.Value() == 1 && ZERO.Value() == 0 && ONES.Value() == 255
  {
    PowEight();
    Steps(ONE);
    Steps(ZERO);
    Steps(ONES);
  }

  lemma Steps(b: Byte)
    ensures b.Value() == (if b.b0 then 1 else 0) + (if b.b1 then 2 else 0) + (if b.b2 then 4 else 0)
                         + (if b.b3 then 8 else 0) + (if b.b4 then 16 else 0) + (if b.b5 then 32 else 0)
                         + (if b.b6 then 64 else 0) + (if b.b7 then 128 else 0)
  {
    PowEight();
    assert b.Low(2) == (if b.b0 then 1 else 0) + (if b.b1 then 2 else 0);
    assert b.Low(4) == b.Low(2) + (if b.b2 then 4 else 0) + (if b.b3 then 8 else 0);
    assert b.Low(6) == b.Low(4) + (if b.b4 then 16 else 0) + (if b.b5 then 32 else 0);
    assert b.Low(8) == b.Low(6) + (if b.b6 then 64 else 0) + (if b.b7 then 128 else 0);
  }

  /** A word whose bytes are 0 or 1, times 255, has 0 or 255 in each byte. */
  function Widen(w: Word): Word { seq(|w|, i requires 0 <= i < |w| => if w[i].b0 then ONES else ZERO) }

  lemma {:induction false} WidenIsProduct(w: Word, m: nat)
    requires m <= |w| && forall i :: 0 <= i < |w| ==> w[i] == ONE || w[i] == ZERO
    ensures ValueOf(Widen(w), m) == ValueOf(w, m) * 255
  {
    if m > 0 {
      WidenIsProduct(w, m - 1);
      OneIsOne();
      Times(ValueOf(w, m - 1), Radix(m - 1), w[m - 1].Value(), 255);
    }
  }

  lemma {:induction false} LowInjective(a: Byte, b: Byte, n: nat, i: nat)
    requires a.Low(n) == b.Low(n) && i < n
    ensures a.Bit(i) == b.Bit(i)
  {
    if i < n - 1 { LowInjective(a, b, n - 1, i); }
  }

  /** A byte is determined by its value. */
  lemma ValueInjective(a: Byte, b: Byte)
    requires a.Value() == b.Value()
    ensures a == b
  {
    hide Byte.Low;
    LowInjective(a, b, 8, 0);
    LowInjective(a, b, 8, 1);
    LowInjective(a, b, 8, 2);
    LowInjective(a, b, 8, 3);
    LowInjective(a, b, 8, 4);
    LowInjective(a, b, 8, 5);
    LowInjective(a, b, 8, 6);
    LowInjective(a, b, 8, 7);
  }

  lemma UnsignedByte(x: nat)
    requires x < 256
    ensures ToByte(x).Value() == x
  {
    hide Digits, Byte.Value;
    DigitsValue(x);
  }

  /** A byte shifted right by one bit, without what comes in from the next byte. */
  function HalfByte(b: Byte): Byte { Byte(b.b1, b.b2, b.b3, b.b4, b.b5, b.b6, b.b7, false) }

  lemma HalfOfDigits(x: nat)
    requires !Odd(Half(Half(Half(Half(Half(Half(Half(Half(x)))))))))
    ensures HalfByte(Digits(x)) == Digits(Half(x))
  {
    hide Half, Odd;
  }

  /** Numbers that differ in the lowest digit. */
  lemma FlipDigit(x: nat, y: nat)
    requires Half(x) == Half(y) && Odd(y) == !Odd(x)
    ensures Digits(y) == Digits(x).Xor(ONE)
  {
    hide Half, Odd;
  }

  lemma EighthHalf(x: nat)
    ensures HalfTimes(x, 8) == Half(Half(Half(Half(Half(Half(Half(Half(x))))))))
  {
    hide Half;
    assert HalfTimes(x, 1) == Half(x);
    assert HalfTimes(x, 2) == Half(HalfTimes(x, 1));
    assert HalfTimes(x, 3) == Half(HalfTimes(x, 2));
    assert HalfTimes(x, 4) == Half(HalfTimes(x, 3));
    assert HalfTimes(x, 5) == Half(HalfTimes(x, 4));
    assert HalfTimes(x, 6) == Half(HalfTimes(x, 5));
    assert HalfTimes(x, 7) == Half(HalfTimes(x, 6));
  }

  lemma HalfOfByte(x: nat)
    requires x < 256
    ensures HalfByte(ToByte(x)) == ToByte(Half(x))
  {
    hide Digits, HalfByte;
    PowEight();
    HalvesShrink(x, 8);
    EighthHalf(x);
    HalfOfDigits(x);
  }
}
