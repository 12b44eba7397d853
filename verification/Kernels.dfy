/** The bucket kernels: `array_kernel`, slot by slot, and `uint_kernel`, all slots of a word
    at once, proved to agree. */
module Kernels {
  import opened Words
  import opened Slots

  // ---------------------------------------------------------------- array_kernel

  /** One flag per slot. */
  type SlotFlags = seq<bool>

  function Mask(k: seq<int>, s: int): SlotFlags { seq(|k|, i requires 0 <= i < |k| => k[i] == s) }

  function MaskNot(k: seq<int>, s: int): SlotFlags { seq(|k|, i requires 0 <= i < |k| => k[i] != s) }

  function MaskHash(k: seq<int>): SlotFlags { seq(|k|, i requires 0 <= i < |k| => IsHash(k[i])) }

  function MaskNotHash(k: seq<int>): SlotFlags { seq(|k|, i requires 0 <= i < |k| => !IsHash(k[i])) }

  function MaskEqual(k: seq<int>, l: seq<int>): SlotFlags
    requires |k| == |l|
  {
    seq(|k|, i requires 0 <= i < |k| => k[i] == l[i])
  }

  function Min(a: int, b: int): int { if a < b then a else b }

  /** The unsigned value of a state byte. */
  function Unsigned(s: int): int { if s < 0 then s + 256 else s }

  function HashToTombstone(k: seq<int>): seq<int> {
    seq(|k|, i requires 0 <= i < |k| => Min(k[i], TOMBSTONE))
  }

  /** The smaller of two unsigned bytes, as a state again. */
  function NotHashToEmpty(k: seq<int>): seq<int> {
    seq(|k|, i requires 0 <= i < |k| =>
      var u := Min(Unsigned(k[i]), Unsigned(EMPTY));
      if u >= 128 then u - 256 else u)
  }

  function ToEmpty(k: seq<int>, m: SlotFlags): seq<int>
    requires |m| == |k|
  {
    seq(|k|, i requires 0 <= i < |k| => if m[i] then EMPTY else k[i])
  }

  /** The loop of `array_kernel::mask`. */
  method ArrayMask(k: seq<int>, s: int) returns (m: SlotFlags)
    ensures m == Mask(k, s)
  {
    m := seq(|k|, _ => false);
    for i := 0 to |k|
      invariant |m| == |k|
      invariant forall j :: 0 <= j < |k| ==> m[j] == (j < i && k[j] == s)
    {
      m := m[i := m[i] || k[i] == s];
    }
  }

  /** What the two transforms mean on valid states. */
  lemma TransformsMean(k: seq<int>)
    requires ValidStates(k)
    ensures forall i :: 0 <= i < |k| ==> HashToTombstone(k)[i] == if k[i] == EMPTY then EMPTY else TOMBSTONE
    ensures forall i :: 0 <= i < |k| ==> NotHashToEmpty(k)[i] == if IsHash(k[i]) then k[i] else EMPTY
  {
    forall i | 0 <= i < |k| ensures HashToTombstone(k)[i] == (if k[i] == EMPTY then EMPTY else TOMBSTONE)
                                    && NotHashToEmpty(k)[i] == if IsHash(k[i]) then k[i] else EMPTY {
      assert ValidState(k[i]);
    }
  }

  ghost predicate ValidStates(k: seq<int>) { forall i :: 0 <= i < |k| ==> ValidState(k[i]) }

  // ---------------------------------------------------------------- uint_kernel

  function Encode(k: seq<int>): Word { seq(|k|, i requires 0 <= i < |k| => ToByte(k[i])) }

  /** A mask of the word-parallel kernel: the highest bit of a byte is the flag. */
  function FlagWord(m: SlotFlags): Word { seq(|m|, i requires 0 <= i < |m| => if m[i] then MSB else ZERO) }

  function Lsbs(n: nat): Word { Fill(n, ONE) }

  function Msbs(n: nat): Word { Fill(n, MSB) }

  /** The bytes of `m` that are zero, exactly. */
  function ZeroBytes(m: Word): Word {
    And(Add(And(Not(m), Not(Msbs(|m|))), Lsbs(|m|)), And(Not(m), Msbs(|m|)))
  }

  function UintMask(w: Word, s: int): Word { ZeroBytes(Xor(w, Fill(|w|, ToByte(s)))) }

  /** The shorter form, with false positives. */
  function FastMask(w: Word, s: int): Word {
    var m := Xor(w, Fill(|w|, ToByte(s)));
    And(Sub(m, Lsbs(|w|)), And(Not(m), Msbs(|w|)))
  }

  function UintMaskEqual(v: Word, w: Word): Word
    requires |v| == |w|
  {
    ZeroBytes(Xor(v, w))
  }

  function UintMaskHash(w: Word): Word { And(Not(w), Msbs(|w|)) }

  function UintMaskNotHash(w: Word): Word { And(w, Msbs(|w|)) }

  function UintMaskEmpty(w: Word): Word { And(And(w, ShiftLeft7(Not(w))), Msbs(|w|)) }

  function UintMaskTombstone(w: Word): Word { And(And(w, ShiftLeft7(w)), Msbs(|w|)) }

  /** `mask_not…`: the other slots. */
  function Others(m: Word): Word { Xor(m, Msbs(|m|)) }

  function UintHashToTombstone(w: Word): Word { Or(Msbs(|w|), And(Or(ShiftRight7(Not(w)), w), Lsbs(|w|))) }

  function UintNotHashToEmpty(w: Word): Word { And(w, Or(Not(Lsbs(|w|)), ShiftRight7(Not(w)))) }

  function UintToEmpty(w: Word, m: Word): Word
    requires |m| == |w|
  {
    Xor(w, And(Xor(w, Msbs(|w|)), Widen(ShiftRight7(m))))
  }

  predicate HasAny(m: Word) { exists i :: 0 <= i < |m| && m[i] != ZERO }

  // ---------------------------------------------------------------- bytes

  lemma StateBytes(s: int)
    requires -128 <= s < 128
    ensures ToByte(s).b7 <==> s < 0
  {
    hide ToByte, Byte.Value;
    SignedByte(s);
    ValueBound(ToByte(s));
  }

  lemma MarkerBytes()
    ensures ToByte(EMPTY) == MSB && ToByte(TOMBSTONE) == Byte(true, false, false, false, false, false, false, true)
  {
    hide Odd, Half;
    PowersHalve();
    assert ToByte(EMPTY) == Digits(128) && ToByte(TOMBSTONE) == Digits(129);
  }

  lemma PowersHalve()
    ensures Half(129) == Half(128) == 64 && Half(64) == 32 && Half(32) == 16 && Half(16) == 8 && Half(8) == 4
            && Half(4) == 2 && Half(2) == 1
    ensures Odd(129) && Odd(1) && !Odd(128) && !Odd(64) && !Odd(32) && !Odd(16) && !Odd(8) && !Odd(4) && !Odd(2)
  {
  }

  /** Three kinds of state, told apart by two bits. */
  lemma ValidByte(s: int)
    requires ValidState(s)
    ensures var b := ToByte(s);
      && (IsHash(s) <==> !b.b7)
      && (s == EMPTY <==> b == MSB)
      && (b.b7 ==> (s == EMPTY <==> !b.b0) && (s == TOMBSTONE <==> b.b0))
  {
    hide ToByte;
    StateBytes(s);
    MarkerBytes();
    SameByte(s, EMPTY);
  }

  /** Two bytes are equal when their exclusive or is zero. */
  lemma XorZero(a: Byte, b: Byte)
    ensures a.Xor(b) == ZERO <==> a == b
  {
  }

  lemma BorrowStep(m: Byte, b: bool, i: nat)
    requires 1 <= i < 8
    ensures BorrowBit(m, ONE, b, i + 1) <==> !m.Bit(i) && BorrowBit(m, ONE, b, i)
    ensures BorrowBit(m, ONE, b, 1) <==> !m.b0 || b
  {
  }

  lemma BorrowChain(m: Byte, b: bool)
    ensures BorrowBit(m, ONE, b, 7) <==> (!m.b0 || b) && !m.b1 && !m.b2 && !m.b3 && !m.b4 && !m.b5 && !m.b6
    ensures BorrowBit(m, ONE, b, 8) <==> BorrowBit(m, ONE, b, 7) && !m.b7
  {
    hide BorrowBit;
    BorrowStep(m, b, 1);
    BorrowStep(m, b, 2);
    BorrowStep(m, b, 3);
    BorrowStep(m, b, 4);
    assert BorrowBit(m, ONE, b, 5) <==> (!m.b0 || b) && !m.b1 && !m.b2 && !m.b3 && !m.b4;
    BorrowStep(m, b, 5);
    BorrowStep(m, b, 6);
    BorrowStep(m, b, 7);
  }

  /** Subtracting one, and perhaps a borrow. */
  lemma MinusOne(m: Byte, b: bool)
    ensures BorrowOut(m, ONE, b) <==> m == ZERO || (m == ONE && b)
    ensures !m.b7 ==> (Diff(m, ONE, b).b7 <==> m == ZERO || (m == ONE && b))
  {
    hide BorrowBit, DiffAt;
    BorrowChain(m, b);
    assert Diff(m, ONE, b).b7 == DiffAt(m, ONE, b, 7);
    TopDiff(m, b);
  }

  lemma TopDiff(m: Byte, b: bool)
    ensures DiffAt(m, ONE, b, 7) == (m.b7 != BorrowBit(m, ONE, b, 7))
  {
    hide BorrowBit;
  }

  lemma CarryStep(x: Byte, i: nat)
    requires 1 <= i < 8
    ensures CarryBit(x, ONE, false, i + 1) <==> x.Bit(i) && CarryBit(x, ONE, false, i)
    ensures CarryBit(x, ONE, false, 1) <==> x.b0
  {
  }

  lemma CarryChain(x: Byte)
    ensures CarryBit(x, ONE, false, 7) <==> x.b0 && x.b1 && x.b2 && x.b3 && x.b4 && x.b5 && x.b6
    ensures CarryBit(x, ONE, false, 8) <==> CarryBit(x, ONE, false, 7) && x.b7
  {
    hide CarryBit;
    CarryStep(x, 1);
    CarryStep(x, 2);
    CarryStep(x, 3);
    CarryStep(x, 4);
    assert CarryBit(x, ONE, false, 5) <==> x.b0 && x.b1 && x.b2 && x.b3 && x.b4;
    CarryStep(x, 5);
    CarryStep(x, 6);
    CarryStep(x, 7);
  }

  lemma TopSum(x: Byte)
    ensures SumAt(x, ONE, false, 7) == (x.b7 != CarryBit(x, ONE, false, 7))
  {
    hide CarryBit;
  }

  /** Adding one to a byte below 128 does not carry, and reaches 128 from 127 only. */
  lemma PlusOne(x: Byte)
    requires !x.b7
    ensures !CarryOut(x, ONE, false)
    ensures Sum(x, ONE, false).b7 <==> x == Byte(true, true, true, true, true, true, true, false)
  {
    hide CarryBit, SumAt;
    CarryChain(x);
    assert Sum(x, ONE, false).b7 == SumAt(x, ONE, false, 7);
    TopSum(x);
  }

  // ---------------------------------------------------------------- exact masks

  /** The operands of the addition: the complement without its top bit, and one. */
  lemma Operands(m: Word, i: nat)
    requires i < |m|
    ensures var x := And(Not(m), Not(Msbs(|m|)));
      |x| == |m| == |Lsbs(|m|)| && Lsbs(|m|)[i] == ONE
        && x[i] == Byte(!m[i].b0, !m[i].b1, !m[i].b2, !m[i].b3, !m[i].b4, !m[i].b5, !m[i].b6, false)
  {
  }

  lemma {:induction false} NoCarry(m: Word, i: nat)
    requires i <= |m|
    ensures |And(Not(m), Not(Msbs(|m|)))| == |m| == |Lsbs(|m|)|
    ensures !CarryInto(And(Not(m), Not(Msbs(|m|))), Lsbs(|m|), i)
  {
    if i > 0 {
      NoCarry(m, i - 1);
      Operands(m, i - 1);
      CarryOn(And(Not(m), Not(Msbs(|m|))), Lsbs(|m|), i);
    }
  }

  lemma CarryOn(v: Word, w: Word, i: nat)
    requires |v| == |w| && 0 < i <= |v| && !v[i - 1].b7 && w[i - 1] == ONE && !CarryInto(v, w, i - 1)
    ensures !CarryInto(v, w, i)
  {
    hide CarryOut;
    PlusOne(v[i - 1]);
  }

  /** What the last conjunction keeps of two bytes. */
  lemma FlagByte(a: Byte, b: Byte)
    ensures a.And(b.Not().And(MSB)) == if a.b7 && !b.b7 then MSB else ZERO
  {
  }

  lemma FlagAt(v: Word, m: Word, i: nat)
    requires |v| == |m| && i < |m|
    ensures And(v, And(Not(m), Msbs(|m|)))[i] == if v[i].b7 && !m[i].b7 then MSB else ZERO
  {
    FlagByte(v[i], m[i]);
  }

  lemma SumWithoutCarry(v: Word, w: Word, i: nat)
    requires |v| == |w| && i < |v| && !v[i].b7 && w[i] == ONE && !CarryInto(v, w, i)
    ensures Add(v, w)[i].b7 <==> v[i] == Byte(true, true, true, true, true, true, true, false)
  {
    hide Sum, CarryOut;
    PlusOne(v[i]);
  }

  lemma ZeroByteAt(m: Word, i: nat)
    requires i < |m|
    ensures ZeroBytes(m)[i] == if m[i] == ZERO then MSB else ZERO
  {
    var v, w := And(Not(m), Not(Msbs(|m|))), Lsbs(|m|);
    NoCarry(m, i);
    Operands(m, i);
    hide Add, And, Not, Fill, CarryInto;
    AddSize(v, w);
    SumWithoutCarry(v, w, i);
    FlagAt(Add(v, w), m, i);
  }

  lemma AddSize(v: Word, w: Word)
    requires |v| == |w|
    ensures |Add(v, w)| == |v|
  {
  }

  /** No carry leaves a byte, so each byte is judged by itself. */
  lemma ZeroBytesAre(m: Word, f: SlotFlags)
    requires |f| == |m| && forall i :: 0 <= i < |m| ==> (f[i] <==> m[i] == ZERO)
    ensures ZeroBytes(m) == FlagWord(f)
  {
    assert |ZeroBytes(m)| == |m|;
    forall i | 0 <= i < |m| ensures ZeroBytes(m)[i] == FlagWord(f)[i] {
      hide ZeroBytes;
      ZeroByteAt(m, i);
    }
  }

  /** The exact mask of a word is the mask of its slots. */
  lemma MaskAgrees(k: seq<int>, s: int)
    requires ValidStates(k) && -128 <= s < 128
    ensures UintMask(Encode(k), s) == FlagWord(Mask(k, s))
    ensures Others(UintMask(Encode(k), s)) == FlagWord(MaskNot(k, s))
  {
    hide ZeroBytes, ToByte;
    var m := Xor(Encode(k), Fill(|k|, ToByte(s)));
    forall i | 0 <= i < |k| ensures Mask(k, s)[i] <==> m[i] == ZERO {
      assert ValidState(k[i]);
      SameByte(k[i], s);
      XorZero(ToByte(k[i]), ToByte(s));
    }
    ZeroBytesAre(m, Mask(k, s));
    OthersAre(Mask(k, s), MaskNot(k, s));
  }

  lemma OthersAre(f: SlotFlags, g: SlotFlags)
    requires |f| == |g| && forall i :: 0 <= i < |f| ==> g[i] == !f[i]
    ensures Others(FlagWord(f)) == FlagWord(g)
  {
    assert |Others(FlagWord(f))| == |f|;
    assert forall i :: 0 <= i < |f| ==> Others(FlagWord(f))[i] == FlagWord(g)[i];
  }

  lemma MaskEqualAgrees(k: seq<int>, l: seq<int>)
    requires ValidStates(k) && ValidStates(l) && |k| == |l|
    ensures UintMaskEqual(Encode(k), Encode(l)) == FlagWord(MaskEqual(k, l))
  {
    hide ZeroBytes, ToByte;
    var m := Xor(Encode(k), Encode(l));
    forall i | 0 <= i < |k| ensures MaskEqual(k, l)[i] <==> m[i] == ZERO {
      assert ValidState(k[i]) && ValidState(l[i]);
      SameByte(k[i], l[i]);
      XorZero(ToByte(k[i]), ToByte(l[i]));
    }
    ZeroBytesAre(m, MaskEqual(k, l));
  }

  // ---------------------------------------------------------------- masks of markers

  lemma MarkerMaskAt(w: Word, i: nat)
    requires i < |w|
    ensures |UintMaskEmpty(w)| == |UintMaskTombstone(w)| == |UintMaskHash(w)| == |UintMaskNotHash(w)| == |w|
    ensures UintMaskEmpty(w)[i] == if w[i].b7 && !w[i].b0 then MSB else ZERO
    ensures UintMaskTombstone(w)[i] == if w[i].b7 && w[i].b0 then MSB else ZERO
    ensures UintMaskHash(w)[i] == if !w[i].b7 then MSB else ZERO
    ensures UintMaskNotHash(w)[i] == if w[i].b7 then MSB else ZERO
  {
  }

  /** On valid states the two-bit tests find the markers. */
  lemma MarkerMasksAgree(k: seq<int>)
    requires ValidStates(k)
    ensures UintMaskEmpty(Encode(k)) == FlagWord(Mask(k, EMPTY))
    ensures UintMaskTombstone(Encode(k)) == FlagWord(Mask(k, TOMBSTONE))
    ensures UintMaskHash(Encode(k)) == FlagWord(MaskHash(k))
    ensures UintMaskNotHash(Encode(k)) == FlagWord(MaskNotHash(k))
  {
    hide ToByte, UintMaskEmpty, UintMaskTombstone, UintMaskHash, UintMaskNotHash;
    var w := Encode(k);
    MarkerSizes(w);
    forall i | 0 <= i < |k|
      ensures UintMaskEmpty(w)[i] == FlagWord(Mask(k, EMPTY))[i]
              && UintMaskTombstone(w)[i] == FlagWord(Mask(k, TOMBSTONE))[i]
              && UintMaskHash(w)[i] == FlagWord(MaskHash(k))[i] && UintMaskNotHash(w)[i] == FlagWord(MaskNotHash(k))[i]
    {
      assert ValidState(k[i]);
      ValidByte(k[i]);
      MarkerMaskAt(w, i);
    }
  }

  lemma MarkerSizes(w: Word)
    ensures |UintMaskEmpty(w)| == |UintMaskTombstone(w)| == |UintMaskHash(w)| == |UintMaskNotHash(w)| == |w|
  {
  }

  // ---------------------------------------------------------------- transforms

  lemma TransformAt(w: Word, i: nat)
    requires i < |w|
    ensures |UintHashToTombstone(w)| == |UintNotHashToEmpty(w)| == |w|
    ensures UintHashToTombstone(w)[i] == Byte(!w[i].b7 || w[i].b0, false, false, false, false, false, false, true)
    ensures UintNotHashToEmpty(w)[i] == w[i].(b0 := w[i].b0 && !w[i].b7)
  {
  }

  lemma TransformsAgree(k: seq<int>)
    requires ValidStates(k)
    ensures UintHashToTombstone(Encode(k)) == Encode(HashToTombstone(k))
    ensures UintNotHashToEmpty(Encode(k)) == Encode(NotHashToEmpty(k))
  {
    hide ToByte, UintHashToTombstone, UintNotHashToEmpty;
    var w := Encode(k);
    MarkerBytes();
    TransformSizes(w);
    forall i | 0 <= i < |k|
      ensures UintHashToTombstone(w)[i] == Encode(HashToTombstone(k))[i]
              && UintNotHashToEmpty(w)[i] == Encode(NotHashToEmpty(k))[i]
    {
      assert ValidState(k[i]);
      ValidByte(k[i]);
      TransformAt(w, i);
    }
  }

  lemma TransformSizes(w: Word)
    ensures |UintHashToTombstone(w)| == |UintNotHashToEmpty(w)| == |w|
  {
  }

  lemma ToEmptyAt(w: Word, m: Word, i: nat)
    requires |m| == |w| && i < |w| && forall j :: 0 <= j < |m| ==> m[j] == MSB || m[j] == ZERO
    ensures |UintToEmpty(w, m)| == |w|
    ensures UintToEmpty(w, m)[i] == if m[i] == MSB then MSB else w[i]
    ensures forall j :: 0 <= j < |m| ==> ShiftRight7(m)[j] == ONE || ShiftRight7(m)[j] == ZERO
  {
  }

  /** Emptying the slots of a mask, whatever mask it is. */
  lemma ToEmptyAgrees(k: seq<int>, m: SlotFlags)
    requires |m| == |k|
    ensures UintToEmpty(Encode(k), FlagWord(m)) == Encode(ToEmpty(k, m))
  {
    hide ToByte, UintToEmpty;
    MarkerBytes();
    if |k| > 0 { ToEmptyAt(Encode(k), FlagWord(m), 0); }
    ToEmptySize(Encode(k), FlagWord(m));
    forall i | 0 <= i < |k| ensures UintToEmpty(Encode(k), FlagWord(m))[i] == Encode(ToEmpty(k, m))[i] {
      ToEmptyAt(Encode(k), FlagWord(m), i);
    }
  }

  lemma ToEmptySize(w: Word, m: Word)
    requires |m| == |w|
    ensures |UintToEmpty(w, m)| == |w|
  {
  }

  // ---------------------------------------------------------------- the fast mask

  /** The state that differs from `s` in the lowest bit only. */
  function Partner(s: int): int { if s % 2 == 0 then s + 1 else s - 1 }

  /** The slots that the fast mask reports. */
  predicate Suspect(k: seq<int>, s: int, i: nat)
    requires i < |k|
  {
    k[i] == s || (i > 0 && k[i] == Partner(s) && Suspect(k, s, i - 1))
  }

  function Suspects(k: seq<int>, s: int): SlotFlags { seq(|k|, i requires 0 <= i < |k| => Suspect(k, s, i)) }

  lemma PartnerByte(s: int)
    requires 0 <= s < 128
    ensures 0 <= Partner(s) < 128 && ToByte(Partner(s)) == ToByte(s).Xor(ONE)
  {
    hide Digits;
    FlipDigit(s, Partner(s));
  }

  lemma XorOne(a: Byte, b: Byte)
    ensures a.Xor(b) == ONE <==> a == b.Xor(ONE)
  {
  }

  /** One byte of the difference: it is flagged exactly when it passes a borrow on. */
  lemma FastByte(k: seq<int>, s: int, i: nat)
    requires ValidStates(k) && 0 <= s < 128 && i < |k|
    ensures var m := Xor(Encode(k), Fill(|k|, ToByte(s)));
      && |m| == |Lsbs(|k|)| == |k|
      && (BorrowOut(m[i], Lsbs(|k|)[i], BorrowInto(m, Lsbs(|k|), i)) <==>
        k[i] == s || (k[i] == Partner(s) && BorrowInto(m, Lsbs(|k|), i)))
      && (Diff(m[i], Lsbs(|k|)[i], BorrowInto(m, Lsbs(|k|), i)).b7 && !m[i].b7
          <==> k[i] == s || (k[i] == Partner(s) && BorrowInto(m, Lsbs(|k|), i)))
  {
    hide ToByte, BorrowOut, Diff, BorrowInto;
    var m := Xor(Encode(k), Fill(|k|, ToByte(s)));
    assert ValidState(k[i]);
    assert m[i] == ToByte(k[i]).Xor(ToByte(s)) && Lsbs(|k|)[i] == ONE;
    MinusOne(m[i], BorrowInto(m, Lsbs(|k|), i));
    PartnerByte(s);
    SameByte(k[i], s);
    SameByte(k[i], Partner(s));
    XorZero(ToByte(k[i]), ToByte(s));
    XorOne(ToByte(k[i]), ToByte(s));
  }

  lemma {:induction false} BorrowIsSuspect(k: seq<int>, s: int, i: nat)
    requires ValidStates(k) && 0 <= s < 128 && i <= |k|
    ensures var m := Xor(Encode(k), Fill(|k|, ToByte(s)));
      |m| == |Lsbs(|k|)| && (BorrowInto(m, Lsbs(|k|), i) <==> i > 0 && Suspect(k, s, i - 1))
  {
    hide ToByte, BorrowOut, Diff;
    if i > 0 {
      BorrowIsSuspect(k, s, i - 1);
      FastByte(k, s, i - 1);
    }
  }

  lemma FastMaskIs(k: seq<int>, s: int)
    requires ValidStates(k) && 0 <= s < 128
    ensures FastMask(Encode(k), s) == FlagWord(Suspects(k, s))
  {
    var m := Xor(Encode(k), Fill(|k|, ToByte(s)));
    assert |FastMask(Encode(k), s)| == |k|;
    forall i | 0 <= i < |k| ensures FastMask(Encode(k), s)[i] == FlagWord(Suspects(k, s))[i] {
      hide ToByte, BorrowOut, Diff, BorrowInto;
      FastByte(k, s, i);
      BorrowIsSuspect(k, s, i);
      FlagAt(Sub(m, Lsbs(|k|)), m, i);
    }
  }

  lemma {:induction false} SuspectRun(k: seq<int>, s: int, i: nat) returns (j: nat)
    requires i < |k| && Suspect(k, s, i)
    ensures j <= i && k[j] == s && forall x :: j < x <= i ==> k[x] == Partner(s)
  {
    if k[i] == s { j := i; } else { j := SuspectRun(k, s, i - 1); }
  }

  lemma {:induction false} RunIsSuspect(k: seq<int>, s: int, j: nat, i: nat)
    requires j <= i < |k| && k[j] == s && forall x :: j < x <= i ==> k[x] == Partner(s)
    ensures Suspect(k, s, i)
  {
    if j < i { RunIsSuspect(k, s, j, i - 1); }
  }

  /** The slots that the fast mask reports are those in a run that a match begins. */
  lemma SuspectsAre(k: seq<int>, s: int, i: nat)
    requires i < |k|
    ensures Suspects(k, s)[i] <==> exists j :: 0 <= j <= i && k[j] == s && forall x :: j < x <= i ==> k[x] == Partner(s)
  {
    if Suspects(k, s)[i] { var j := SuspectRun(k, s, i); }
    if j :| 0 <= j <= i && k[j] == s && forall x :: j < x <= i ==> k[x] == Partner(s) { RunIsSuspect(k, s, j, i); }
  }

  /** The fast mask contains every match, and only together with matches: what else it
      reports sits in a run directly above a match and is itself in use, so no erased key is
      ever compared.  It is zero exactly when there is no match, and its lowest slot is one. */
  lemma FastMaskIsSafe(k: seq<int>, s: int)
    requires ValidStates(k) && 0 <= s < 128
    ensures FastMask(Encode(k), s) == FlagWord(Suspects(k, s))
    ensures forall i :: 0 <= i < |k| && Mask(k, s)[i] ==> Suspects(k, s)[i]
    ensures forall i :: 0 <= i < |k| && Suspects(k, s)[i] && !Mask(k, s)[i] ==>
              k[i] == Partner(s) && IsHash(k[i])
              && exists j :: 0 <= j < i && k[j] == s && forall x :: j < x <= i ==> k[x] == Partner(s)
    ensures HasAny(FastMask(Encode(k), s)) <==> HasAny(UintMask(Encode(k), s))
    ensures forall i :: 0 <= i < |k| && Suspects(k, s)[i] && (forall j :: 0 <= j < i ==> !Suspects(k, s)[j]) ==>
              Mask(k, s)[i]
  {
    hide FastMask, UintMask, Encode;
    FastMaskIs(k, s);
    MaskAgrees(k, s);
    PartnerByte(s);
    forall i | 0 <= i < |k| && Suspects(k, s)[i] && !Mask(k, s)[i]
      ensures k[i] == Partner(s) && IsHash(k[i]) && exists j :: 0 <= j < i && k[j] == s && forall x :: j < x <= i ==>
                k[x] == Partner(s)
    {
      var j := SuspectRun(k, s, i);
    }
    AnyFlag(Suspects(k, s));
    AnyFlag(Mask(k, s));
    if i :| 0 <= i < |k| && Suspects(k, s)[i] {
      var j := SuspectRun(k, s, i);
      assert Mask(k, s)[j];
    }
    forall i | 0 <= i < |k| && Suspects(k, s)[i] && (forall j :: 0 <= j < i ==> !Suspects(k, s)[j])
      ensures Mask(k, s)[i] {
      var j := SuspectRun(k, s, i);
      assert Suspects(k, s)[j];
    }
  }

  lemma AnyFlag(m: SlotFlags)
    ensures HasAny(FlagWord(m)) <==> exists i :: 0 <= i < |m| && m[i]
  {
    if i :| 0 <= i < |m| && m[i] { assert FlagWord(m)[i] != ZERO; }
    if i :| 0 <= i < |FlagWord(m)| && FlagWord(m)[i] != ZERO { assert m[i]; }
  }

  // ---------------------------------------------------------------- LRU counters

  const MAX_LRU := 255

  ghost predicate ValidLrus(l: seq<int>) { forall i :: 0 <= i < |l| ==> 0 <= l[i] <= MAX_LRU }

  /** `array_kernel::update_lru`, before the result is cast to a byte. */
  function UpdateLru(l: seq<int>, i: int): seq<int>
    requires 0 <= i < |l|
  {
    var divisor := if l[i] >= MAX_LRU then 2 else 1;
    seq(|l|, j requires 0 <= j < |l| => l[j] / divisor + if j == i then 1 else 0)
  }

  function MaskLruBelow(l: seq<int>, t: int): SlotFlags { seq(|l|, i requires 0 <= i < |l| => l[i] < t) }

  /** `to_empty_if_lru_below` */
  function ToEmptyIfLruBelow(k: seq<int>, l: seq<int>, t: int): (r: seq<int>)
    requires |k| == |l|
    ensures |r| == |k|
  {
    ToEmpty(k, MaskLruBelow(l, t))
  }

  /** No counter leaves the range of a byte; the touched slot ends up above every slot that was
      not above it, and the others keep their order. */
  lemma TouchOrders(l: seq<int>, i: int)
    requires ValidLrus(l) && 0 <= i < |l|
    ensures |UpdateLru(l, i)| == |l| && ValidLrus(UpdateLru(l, i))
    ensures forall j :: 0 <= j < |l| && j != i && l[j] <= l[i] ==> UpdateLru(l, i)[j] < UpdateLru(l, i)[i]
    ensures forall j, x :: 0 <= j < |l| && 0 <= x < |l| && j != i && x != i && l[j] <= l[x] ==>
              UpdateLru(l, i)[j] <= UpdateLru(l, i)[x]
  {
  }

  function UintUpdateLru(w: Word, i: nat): Word
    requires i < |w|
  {
    var n := if w[i].Value() >= MAX_LRU then And(ShiftRight1(w), Not(Msbs(|w|))) else And(w, Fill(|w|, ONES));
    Add(n, OneAt(|w|, i))
  }

  /** Rescaling halves every byte by itself. */
  lemma RescaleAt(w: Word, j: nat)
    requires j < |w|
    ensures |And(ShiftRight1(w), Not(Msbs(|w|)))| == |And(w, Fill(|w|, ONES))| == |w|
    ensures And(ShiftRight1(w), Not(Msbs(|w|)))[j] == HalfByte(w[j])
    ensures And(w, Fill(|w|, ONES))[j] == w[j]
  {
  }

  lemma AddToByte(a: Byte, b: Byte)
    requires a.Value() + b.Value() < 256
    ensures !CarryOut(a, b, false) && Sum(a, b, false).Value() == a.Value() + b.Value()
  {
    hide CarryOut, Sum, Byte.Value;
    SumValue(a, b, false);
    ValueBound(Sum(a, b, false));
  }

  lemma {:induction false} NoCarryTouch(n: Word, i: nat, j: nat)
    requires i < |n| && n[i].Value() < 255 && j <= |n|
    ensures |OneAt(|n|, i)| == |n| && !CarryInto(n, OneAt(|n|, i), j)
  {
    hide CarryOut, Byte.Value;
    if j > 0 {
      NoCarryTouch(n, i, j - 1);
      OneIsOne();
      ValueBound(n[j - 1]);
      AddToByte(n[j - 1], OneAt(|n|, i)[j - 1]);
    }
  }

  lemma TouchByte(n: Word, i: nat, j: nat)
    requires i < |n| && n[i].Value() < 255 && j < |n|
    ensures |OneAt(|n|, i)| == |n| == |Add(n, OneAt(|n|, i))|
            && Add(n, OneAt(|n|, i))[j].Value() == n[j].Value() + if j == i then 1 else 0
  {
    hide CarryOut, Sum, Byte.Value, CarryInto;
    NoCarryTouch(n, i, j);
    OneIsOne();
    ValueBound(n[j]);
    AddToByte(n[j], OneAt(|n|, i)[j]);
  }

  /** The word after rescaling holds the rescaled counters. */
  function Rescaled(l: seq<int>, i: int): seq<int>
    requires 0 <= i < |l|
  {
    if l[i] >= MAX_LRU then seq(|l|, j requires 0 <= j < |l| => l[j] / 2) else l
  }

  lemma RescaledWord(l: seq<int>, i: int)
    requires ValidLrus(l) && 0 <= i < |l|
    ensures var w := Encode(l);
      (if w[i].Value() >= MAX_LRU then And(ShiftRight1(w), Not(Msbs(|w|))) else And(w, Fill(|w|, ONES)))
        == Encode(Rescaled(l, i))
  {
    hide ToByte, Byte.Value;
    var w := Encode(l);
    UnsignedByte(l[i]);
    var n := if w[i].Value() >= MAX_LRU then And(ShiftRight1(w), Not(Msbs(|w|))) else And(w, Fill(|w|, ONES));
    RescaleAt(w, i);
    forall j | 0 <= j < |l| ensures n[j] == Encode(Rescaled(l, i))[j] {
      RescaleAt(w, j);
      HalfOfByte(l[j]);
      assert Half(l[j]) == l[j] / 2;
    }
  }

  /** Updating all counters of a word at once is updating each. */
  lemma UpdateLruAgrees(l: seq<int>, i: int)
    requires ValidLrus(l) && 0 <= i < |l|
    ensures UintUpdateLru(Encode(l), i) == Encode(UpdateLru(l, i))
  {
    hide ToByte, Byte.Value, Add, And, ShiftRight1, OneAt;
    TouchOrders(l, i);
    RescaledWord(l, i);
    var r := Rescaled(l, i);
    var n := Encode(r);
    UnsignedByte(r[i]);
    TouchByte(n, i, i);
    assert UintUpdateLru(Encode(l), i) == Add(n, OneAt(|n|, i));
    forall j | 0 <= j < |l| ensures Add(n, OneAt(|n|, i))[j] == Encode(UpdateLru(l, i))[j] {
      TouchByte(n, i, j);
      UnsignedByte(r[j]);
      UnsignedByte(UpdateLru(l, i)[j]);
      ValueInjective(Add(n, OneAt(|n|, i))[j], Encode(UpdateLru(l, i))[j]);
    }
  }

  /** `uint_kernel::mask_lru_below`: comparison bits at the bottom of each byte, moved up. */
  function UintMaskLruBelow(w: Word, t: int): Word {
    ShiftLeft7(seq(|w|, i requires 0 <= i < |w| => if w[i].Value() < t then ONE else ZERO))
  }

  lemma MaskLruBelowAgrees(l: seq<int>, t: int)
    requires ValidLrus(l)
    ensures UintMaskLruBelow(Encode(l), t) == FlagWord(MaskLruBelow(l, t))
  {
    hide ToByte, Byte.Value;
    var w := Encode(l);
    forall i | 0 <= i < |l| ensures w[i].Value() == l[i] { UnsignedByte(l[i]); }
    assert |UintMaskLruBelow(w, t)| == |l|;
    forall i | 0 <= i < |l| ensures UintMaskLruBelow(w, t)[i] == FlagWord(MaskLruBelow(l, t))[i] {
      assert i > 0 ==> w[i - 1].Value() == l[i - 1];
    }
  }

  lemma ToEmptyIfLruBelowAgrees(k: seq<int>, l: seq<int>, t: int)
    requires ValidLrus(l) && |k| == |l|
    ensures |UintMaskLruBelow(Encode(l), t)| == |Encode(k)|
    ensures UintToEmpty(Encode(k), UintMaskLruBelow(Encode(l), t)) == Encode(ToEmptyIfLruBelow(k, l, t))
  {
    hide Encode, UintToEmpty, UintMaskLruBelow;
    MaskLruBelowAgrees(l, t);
    ToEmptyAgrees(k, MaskLruBelow(l, t));
    EncodeSize(k);
  }

  lemma EncodeSize(k: seq<int>)
    ensures |Encode(k)| == |k|
  {
  }

  /** `min_lru`: the first slot with the least counter. */
  method MinLru(l: seq<int>) returns (lru: int, idx: nat)
    requires |l| > 0
    ensures idx < |l| && lru == l[idx]
    ensures forall j :: 0 <= j < |l| ==> lru <= l[j]
    ensures forall j :: 0 <= j < idx ==> lru < l[j]
  {
    lru, idx := l[0], 0;
    for i := 1 to |l|
      invariant idx < i && lru == l[idx]
      invariant forall j :: 0 <= j < i ==> lru <= l[j]
      invariant forall j :: 0 <= j < idx ==> lru < l[j]
    {
      if l[i] < lru { lru, idx := l[i], i; }
    }
  }
}
