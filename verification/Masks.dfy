/** `uint_mask` of mask.hpp: a set of slot indices in a word, several bits to a slot.

    A word is its bits, least significant first.  Every operation of the source is a bit
    expression; each is proved to be what its name says about the set. */
module Masks {
  import opened Pow2

  type Bits = seq<bool>

  /** `NumBitsUsed / BitsPerSlot` slots of `bps` bits each; the bit that counts is the highest
      one of its slot (`left`) or the lowest one. */
  datatype Format = Format(width: nat, slots: nat, bps: nat, left: bool) {
    ghost predicate Valid() { bps >= 1 && slots >= 1 && slots * bps <= width }

    function Offset(): nat
      requires bps >= 1
    {
      if left then bps - 1 else 0
    }

    /** The bit of slot `i`. */
    function Pos(i: nat): nat
      requires bps >= 1
    {
      i * bps + Offset()
    }
  }

  // ---------------------------------------------------------------- words of bits

  function And(m: Bits, n: Bits): Bits
    requires |m| == |n|
  {
    seq(|m|, p requires 0 <= p < |m| => m[p] && n[p])
  }

  function Xor(m: Bits, n: Bits): Bits
    requires |m| == |n|
  {
    seq(|m|, p requires 0 <= p < |m| => m[p] != n[p])
  }

  function Or(m: Bits, n: Bits): (r: Bits)
    requires |m| == |n|
    ensures |r| == |m|
  {
    seq(|m|, p requires 0 <= p < |m| => m[p] || n[p])
  }

  /** `<<`: bits that leave the word at the top are lost. */
  function Shl(m: Bits, d: nat): (r: Bits)
    ensures |r| == |m|
  {
    seq(|m|, p requires 0 <= p < |m| => p >= d && m[p - d])
  }

  /** `>>`. */
  function Shr(m: Bits, d: nat): Bits {
    seq(|m|, p requires 0 <= p < |m| => p + d < |m| && m[p + d])
  }

  function Word(width: nat, lowest: bool): Bits {
    seq(width, p => p == 0 && lowest)
  }

  /** The borrow into bit `p` when one is subtracted: all bits below are zero. */
  predicate Borrow(m: Bits, p: nat)
    requires p <= |m|
  {
    p == 0 || (!m[p - 1] && Borrow(m, p - 1))
  }

  /** `m - 1`, wrapping around at zero. */
  function Dec(m: Bits): Bits {
    seq(|m|, p requires 0 <= p < |m| => m[p] != Borrow(m, p))
  }

  function ValueOf(m: Bits, n: nat): nat
    requires n <= |m|
  {
    if n == 0 then 0 else ValueOf(m, n - 1) + if m[n - 1] then Pow(n - 1) else 0
  }

  lemma {:induction false} DecPrefix(m: Bits, n: nat)
    requires n <= |m|
    ensures ValueOf(Dec(m), n) == ValueOf(m, n) - 1 + if Borrow(m, n) then Pow(n) else 0
  {
    if n > 0 { DecPrefix(m, n - 1); }
  }

  lemma {:induction false} ValueBelow(m: Bits, n: nat)
    requires n <= |m|
    ensures ValueOf(m, n) < Pow(n)
  {
    if n > 0 { ValueBelow(m, n - 1); }
  }

  /** Subtracting one is arithmetic modulo the width of the word. */
  lemma DecIsModular(m: Bits)
    ensures ValueOf(Dec(m), |m|) == (ValueOf(m, |m|) - 1) % Pow(|m|)
  {
    DecPrefix(m, |m|);
    ValueBelow(Dec(m), |m|);
    DivMod(ValueOf(m, |m|) - 1, Pow(|m|), if Borrow(m, |m|) then -1 else 0, ValueOf(Dec(m), |m|));
  }

  lemma {:induction false} BorrowIsNone(m: Bits, p: nat)
    requires p <= |m|
    ensures Borrow(m, p) <==> forall q :: 0 <= q < p ==> !m[q]
  {
    if p > 0 { BorrowIsNone(m, p - 1); }
  }

  // ---------------------------------------------------------------- the operations

  /** `single(i, v)` */
  function Single(f: Format, i: nat, v: bool): Bits
    requires f.bps >= 1
  {
    Shl(Shl(Word(f.width, v), i * f.bps), f.Offset())
  }

  /** `above(m, i)`, for `i >= -1` */
  function Above(f: Format, m: Bits, i: int): (r: Bits)
    requires f.bps >= 1 && |m| == f.width && i >= -1
    ensures |r| == |m|
  {
    var i0 := if i > 0 then i else 0;
    var n := Shl(Single(f, i0, i0 == i), 1);
    var n' := if i0 == i then Dec(n) else n;
    And(Xor(m, n'), m)
  }

  /** `from(m, i)` */
  function From(f: Format, m: Bits, i: nat): (r: Bits)
    requires f.bps >= 1 && |m| == f.width
    ensures |r| == |m|
  {
    And(Xor(m, Dec(Single(f, i, true))), m)
  }

  function Step(m: Bits): (r: Bits)
    ensures |r| == |m|
  {
    And(m, Dec(m))
  }

  function Truncate(m: Bits): (r: Bits)
    ensures |r| == |m|
  {
    Xor(m, Step(m))
  }

  predicate HasNext(m: Bits) { true in m }

  /** `countr_zero` from bit `p` on. */
  function TrailingZeros(m: Bits, p: nat): (z: nat)
    requires p <= |m|
    ensures p <= z <= |m|
    ensures forall q :: p <= q < z ==> !m[q]
    ensures z < |m| ==> m[z]
    decreases |m| - p
  {
    if p == |m| || m[p] then p else TrailingZeros(m, p + 1)
  }

  function Next(f: Format, m: Bits): nat
    requires f.bps >= 1
  {
    TrailingZeros(m, 0) / f.bps
  }

  /** `popcount` of the lowest `n` bits. */
  function Ones(m: Bits, n: nat): nat
    requires n <= |m|
  {
    if n == 0 then 0 else Ones(m, n - 1) + if m[n - 1] then 1 else 0
  }

  // ---------------------------------------------------------------- sets of slots

  /** A bit is set only where a slot has its bit. */
  ghost predicate IsMask(f: Format, m: Bits)
    requires f.bps >= 1
  {
    && |m| == f.width
    && (forall p :: 0 <= p < |m| && m[p] ==> p % f.bps == f.Offset() && p / f.bps < f.slots)
  }

  predicate At(f: Format, m: Bits, i: int)
    requires f.bps >= 1
  {
    0 <= i < f.slots && f.Pos(i) < |m| && m[f.Pos(i)]
  }

  lemma PosFacts(f: Format, i: nat)
    requires f.Valid() && i < f.slots
    ensures f.Pos(i) < f.width && f.Pos(i) % f.bps == f.Offset() && f.Pos(i) / f.bps == i
  {
    var b := f.bps;
    assert f.Pos(i) == b * i + f.Offset();
    DivMod(f.Pos(i), b, i, f.Offset());
    assert (i + 1) * b <= f.slots * b by { Monotone(i + 1, f.slots, b); }
    assert (i + 1) * b == i * b + b;
  }

  lemma Monotone(x: int, y: int, b: nat)
    requires x <= y
    ensures x * b <= y * b
  {
  }

  lemma PosOrder(f: Format, i: nat, j: nat)
    requires f.bps >= 1
    ensures f.Pos(i) < f.Pos(j) <==> i < j
    ensures f.Pos(i) == f.Pos(j) <==> i == j
  {
    if i < j { Monotone(i + 1, j, f.bps); assert (i + 1) * f.bps == i * f.bps + f.bps; }
    if j < i { Monotone(j + 1, i, f.bps); assert (j + 1) * f.bps == j * f.bps + f.bps; }
  }

  lemma PosOfBit(f: Format, m: Bits, p: nat)
    requires f.Valid() && IsMask(f, m) && p < |m| && m[p]
    ensures f.Pos(p / f.bps) == p && p / f.bps < f.slots
  {
    assert p == f.bps * (p / f.bps) + p % f.bps;
    assert f.bps * (p / f.bps) == (p / f.bps) * f.bps;
  }

  lemma MaskWidth(f: Format, m: Bits)
    requires f.bps >= 1 && IsMask(f, m)
    ensures |m| == f.width
  {
  }

  /** `next` is the least slot. */
  lemma NextIsLeast(f: Format, m: Bits)
    requires f.Valid() && IsMask(f, m) && HasNext(m)
    ensures At(f, m, Next(f, m)) && f.Pos(Next(f, m)) == TrailingZeros(m, 0) < |m|
    ensures forall j :: At(f, m, j) ==> Next(f, m) <= j
  {
    hide Format.Pos, Format.Offset, IsMask;
    MaskWidth(f, m);
    var i := Next(f, m);
    PosOfBit(f, m, TrailingZeros(m, 0));
    forall j | At(f, m, j) ensures i <= j {
      PosOrder(f, j, i);
    }
  }

  lemma NoNext(f: Format, m: Bits)
    requires f.Valid() && IsMask(f, m)
    ensures HasNext(m) <==> exists j :: At(f, m, j)
  {
    if HasNext(m) { NextIsLeast(f, m); }
    if j :| At(f, m, j) { assert m[f.Pos(j)] in m; }
  }

  lemma StepBits(m: Bits)
    ensures forall p :: 0 <= p < |m| ==> Step(m)[p] == (m[p] && p != TrailingZeros(m, 0))
  {
    forall p | 0 <= p < |m| ensures Step(m)[p] == (m[p] && p != TrailingZeros(m, 0)) {
      BorrowIsNone(m, p);
    }
  }

  /** `step` removes the least slot, `truncate` keeps nothing else. */
  lemma StepRemovesLeast(f: Format, m: Bits)
    requires f.Valid() && IsMask(f, m) && HasNext(m)
    ensures IsMask(f, Step(m)) && IsMask(f, Truncate(m))
    ensures forall j :: At(f, Step(m), j) <==> At(f, m, j) && j != Next(f, m)
    ensures forall j :: At(f, Truncate(m), j) <==> j == Next(f, m)
  {
    StepBits(m);
    NextIsLeast(f, m);
    forall j | 0 <= j < f.slots ensures f.Pos(j) == TrailingZeros(m, 0) <==> j == Next(f, m) {
      PosOrder(f, j, Next(f, m));
    }
  }

  lemma SingleBits(f: Format, i: nat, v: bool)
    requires f.Valid() && i < f.slots
    ensures |Single(f, i, v)| == f.width
    ensures forall p :: 0 <= p < f.width ==> (Single(f, i, v)[p] <==> v && p == f.Pos(i))
  {
  }

  /** `single(i)` holds slot `i` only. */
  lemma SingleIs(f: Format, i: nat)
    requires f.Valid() && i < f.slots
    ensures IsMask(f, Single(f, i, true))
    ensures forall j :: At(f, Single(f, i, true), j) <==> j == i
  {
    hide Format.Pos, Format.Offset;
    SingleBits(f, i, true);
    PosFacts(f, i);
    forall j | 0 <= j < f.slots ensures f.Pos(j) == f.Pos(i) <==> j == i { PosOrder(f, j, i); }
  }

  // ---------------------------------------------------------------- full

  /** One bit in every `bps`, out of one bit in every byte. */
  function Spread(width: nat, bps: nat): (m: Bits)
    ensures |m| == width
  {
    var m := seq(width, p => p % 8 == 0);
    var m := if bps < 8 then Or(m, Shl(m, 4)) else m;
    var m := if bps < 4 then Or(m, Shl(m, 2)) else m;
    if bps < 2 then Or(m, Shl(m, 1)) else m
  }

  function Full(f: Format): Bits
    requires f.Valid()
  {
    var m := Shr(Spread(f.width, f.bps), f.width - f.slots * f.bps);
    if f.left then Shl(m, f.bps - 1) else m
  }

  ghost predicate EveryNth(m: Bits, b: nat)
    requires b > 0
  {
    forall p :: 0 <= p < |m| ==> (m[p] <==> p % b == 0)
  }

  lemma Doubled1(m: Bits)
    requires EveryNth(m, 2)
    ensures EveryNth(Or(m, Shl(m, 1)), 1)
  {
    forall p: nat | p < |m| ensures p % 2 == 0 || (p >= 1 && (p - 1) % 2 == 0) {}
  }

  lemma Doubled2(m: Bits)
    requires EveryNth(m, 4)
    ensures EveryNth(Or(m, Shl(m, 2)), 2)
  {
    forall p: nat | p < |m| ensures p % 2 == 0 <==> p % 4 == 0 || (p >= 2 && (p - 2) % 4 == 0) { TwosAndFours(p); }
  }

  lemma TwosAndFours(p: nat)
    ensures p % 2 == 0 <==> p % 4 == 0 || (p >= 2 && (p - 2) % 4 == 0)
  {
    var q, r := p / 2 / 2, p / 2 % 2;
    assert p == 4 * q + 2 * r + p % 2;
    DivMod(p, 4, q, 2 * r + p % 2);
    if r == 1 { DivMod(p - 2, 4, q, p % 2); }
    else if p >= 2 { DivMod(p - 2, 4, q - 1, 2 + p % 2); }
  }

  lemma Doubled4(m: Bits)
    requires EveryNth(m, 8)
    ensures EveryNth(Or(m, Shl(m, 4)), 4)
  {
    forall p: nat | p < |m| ensures p % 4 == 0 <==> p % 8 == 0 || (p >= 4 && (p - 4) % 8 == 0) { FoursAndEights(p); }
  }

  lemma FoursAndEights(p: nat)
    ensures p % 4 == 0 <==> p % 8 == 0 || (p >= 4 && (p - 4) % 8 == 0)
  {
    var q, r := p / 4 / 2, p / 4 % 2;
    assert p == 8 * q + 4 * r + p % 4;
    DivMod(p, 8, q, 4 * r + p % 4);
    if r == 1 { DivMod(p - 4, 8, q, p % 4); }
    else if p >= 4 { DivMod(p - 4, 8, q - 1, 4 + p % 4); }
  }

  lemma SpreadIs(width: nat, bps: nat)
    requires bps == 1 || bps == 2 || bps == 4 || bps == 8
    ensures EveryNth(Spread(width, bps), bps)
  {
    hide Or, Shl;
    var m := seq(width, p => p % 8 == 0);
    assert EveryNth(m, 8);
    if bps < 8 { Doubled4(m); m := Or(m, Shl(m, 4)); }
    if bps < 4 { Doubled2(m); m := Or(m, Shl(m, 2)); }
    if bps < 2 { Doubled1(m); }
  }

  /** Moving by whole slots keeps a bit in its place within the slot. */
  lemma ByWholeSlots(p: int, k: int, b: nat)
    requires b > 0
    ensures (p + k * b) % b == p % b && (p + k * b) / b == p / b + k
  {
    assert p == b * (p / b) + p % b;
    assert b * (p / b + k) == b * (p / b) + k * b;
    DivMod(p + k * b, b, p / b + k, p % b);
  }

  lemma SlotRange(p: int, slots: nat, b: nat)
    requires b > 0 && p % b == 0
    ensures 0 <= p < slots * b <==> 0 <= p / b < slots
  {
    var q := p / b;
    assert p == q * b;
    if q < 0 { Monotone(q, -1, b); } else { Monotone(0, q, b); }
    if q < slots { Monotone(q + 1, slots, b); assert (q + 1) * b == q * b + b; } else { Monotone(slots, q, b); }
  }

  lemma SlotShift(p: int, b: nat)
    requires b > 0
    ensures (p - (b - 1)) % b == 0 <==> p % b == b - 1
    ensures p % b == b - 1 ==> (p - (b - 1)) / b == p / b
  {
    var q, r := p / b, p % b;
    assert p == b * q + r;
    if r == b - 1 {
      DivMod(p - (b - 1), b, q, 0);
    } else {
      assert b * (q - 1) == b * q - b;
      DivMod(p - (b - 1), b, q - 1, r + 1);
    }
  }

  lemma SlotStarts(p: int, slots: nat, b: nat)
    requires b > 0
    ensures p % b == 0 ==> (0 <= p < slots * b <==> 0 <= p / b < slots)
    ensures (p - (b - 1)) % b == 0 <==> p % b == b - 1
    ensures p % b == b - 1 ==> (p - (b - 1)) / b == p / b
  {
    if p % b == 0 { SlotRange(p, slots, b); }
    SlotShift(p, b);
  }

  lemma WholeWord(width: nat, b: nat) returns (k: int)
    requires width % 8 == 0 && (b == 1 || b == 2 || b == 4 || b == 8)
    ensures width == k * b
  {
    var q := width / 8;
    k := if b == 1 then 8 * q else if b == 2 then 4 * q else if b == 4 then 2 * q else q;
  }

  lemma LowSlots(m: Bits, b: nat, slots: nat, d: nat, k: int)
    requires b > 0 && EveryNth(m, b) && d == k * b && |m| == slots * b + d
    ensures forall p :: 0 <= p < |m| ==> (Shr(m, d)[p] <==> p % b == 0 && p < slots * b)
  {
    forall p: int | 0 <= p < |m| ensures Shr(m, d)[p] <==> p % b == 0 && p < slots * b { ByWholeSlots(p, k, b); }
  }

  lemma InPlace(m: Bits, b: nat, slots: nat, left: bool)
    requires b > 0 && forall p :: 0 <= p < |m| ==> (m[p] <==> p % b == 0 && p < slots * b)
    ensures forall p :: 0 <= p < |m| ==>
              ((if left then Shl(m, b - 1) else m)[p] <==> p % b == (if left then b - 1 else 0) && p / b < slots)
  {
    forall p: int | 0 <= p < |m|
      ensures m[p] <==> p % b == 0 && p / b < slots
      ensures Shl(m, b - 1)[p] <==> p % b == b - 1 && p / b < slots
    {
      SlotStarts(p, slots, b);
      SlotStarts(p - (b - 1), slots, b);
    }
  }

  lemma FullBits(f: Format)
    requires f.Valid() && f.width % 8 == 0 && (f.bps == 1 || f.bps == 2 || f.bps == 4 || f.bps == 8)
    ensures |Full(f)| == f.width
    ensures forall p :: 0 <= p < f.width ==> (Full(f)[p] <==> p % f.bps == f.Offset() && p / f.bps < f.slots)
  {
    hide Spread, EveryNth, Shl;
    var m := Spread(f.width, f.bps);
    SpreadIs(f.width, f.bps);
    var k := WholeWord(f.width, f.bps);
    var d := f.width - f.slots * f.bps;
    assert d == (k - f.slots) * f.bps;
    LowSlots(m, f.bps, f.slots, d, k - f.slots);
    InPlace(Shr(m, d), f.bps, f.slots, f.left);
  }

  /** `full` holds every slot and nothing else. */
  lemma FullIs(f: Format)
    requires f.Valid() && f.width % 8 == 0 && (f.bps == 1 || f.bps == 2 || f.bps == 4 || f.bps == 8)
    ensures IsMask(f, Full(f))
    ensures forall j :: At(f, Full(f), j) <==> 0 <= j < f.slots
  {
    hide Full, Format.Pos, Format.Offset;
    FullBits(f);
    forall j | 0 <= j < f.slots ensures At(f, Full(f), j) { PosFacts(f, j); }
  }

  lemma DecOfSingle(n: Bits, q: nat)
    requires q >= 0 && forall p :: 0 <= p < |n| ==> (n[p] <==> p == q)
    ensures forall p :: 0 <= p < |n| ==> (Dec(n)[p] <==> p < q)
  {
    forall p | 0 <= p < |n| ensures Dec(n)[p] <==> p < q {
      BorrowIsNone(n, p);
      assert 0 <= q < p ==> n[q];
    }
  }

  lemma FromBits(f: Format, m: Bits, i: nat)
    requires f.Valid() && |m| == f.width && i < f.slots
    ensures |From(f, m, i)| == |m|
    ensures forall p :: 0 <= p < |m| ==> (From(f, m, i)[p] <==> m[p] && p >= f.Pos(i))
  {
    hide Format.Pos, Format.Offset;
    SingleBits(f, i, true);
    DecOfSingle(Single(f, i, true), f.Pos(i));
  }

  lemma AboveBits(f: Format, m: Bits, i: nat)
    requires f.Valid() && |m| == f.width && i < f.slots
    ensures |Above(f, m, i)| == |m|
    ensures forall p :: 0 <= p < |m| ==> (Above(f, m, i)[p] <==> m[p] && p > f.Pos(i))
  {
    hide Format.Pos, Format.Offset;
    SingleBits(f, i, true);
    var n := Shl(Single(f, i, true), 1);
    assert forall p :: 0 <= p < |n| ==> (n[p] <==> p == f.Pos(i) + 1);
    DecOfSingle(n, f.Pos(i) + 1);
  }

  /** `above(m, -1)` keeps everything. */
  lemma AboveAll(f: Format, m: Bits)
    requires f.Valid() && |m| == f.width
    ensures Above(f, m, -1) == m
  {
    SingleBits(f, 0, false);
    var n := Shl(Single(f, 0, false), 1);
    assert forall p :: 0 <= p < |n| ==> !n[p];
    assert Above(f, m, -1) == And(Xor(m, n), m);
  }

  /** `above` and `from` cut the set off at a slot. */
  lemma CutsOff(f: Format, m: Bits, i: int)
    requires f.Valid() && IsMask(f, m) && -1 <= i < f.slots
    ensures IsMask(f, Above(f, m, i))
    ensures forall j :: At(f, Above(f, m, i), j) <==> At(f, m, j) && j > i
    ensures i >= 0 ==> IsMask(f, From(f, m, i)) && forall j :: At(f, From(f, m, i), j) <==> At(f, m, j) && j >= i
  {
    hide Format.Pos, Format.Offset, Above, From;
    if i == -1 {
      AboveAll(f, m);
    } else {
      AboveBits(f, m, i);
      FromBits(f, m, i);
      forall j | 0 <= j < f.slots ensures (f.Pos(j) > f.Pos(i) <==> j > i) && (f.Pos(j) >= f.Pos(i) <==> j >= i) {
        PosOrder(f, i, j);
        PosOrder(f, j, i);
      }
    }
  }

  ghost function SlotsBelow(f: Format, m: Bits, n: nat): set<int>
    requires f.bps >= 1
  {
    set j: int | 0 <= j < f.slots && At(f, m, j) && f.Pos(j) < n
  }

  ghost function SlotSet(f: Format, m: Bits): set<int>
    requires f.bps >= 1
  {
    set j: int | 0 <= j < f.slots && At(f, m, j)
  }

  lemma OneMoreSlot(f: Format, m: Bits, n: nat)
    requires f.Valid() && IsMask(f, m) && n < |m|
    ensures SlotsBelow(f, m, n + 1) == SlotsBelow(f, m, n) + (if m[n] then {n / f.bps} else {})
    ensures m[n] ==> n / f.bps !in SlotsBelow(f, m, n)
  {
    hide Format.Pos, Format.Offset, IsMask;
    if m[n] { PosOfBit(f, m, n); }
    forall j | 0 <= j < f.slots && f.Pos(j) == n ensures j == n / f.bps { PosFacts(f, j); }
  }

  lemma {:induction false} OnesBelow(f: Format, m: Bits, n: nat)
    requires f.Valid() && IsMask(f, m) && n <= |m|
    ensures Ones(m, n) == |SlotsBelow(f, m, n)|
  {
    hide IsMask;
    if n > 0 {
      OnesBelow(f, m, n - 1);
      OneMoreSlot(f, m, n - 1);
    } else {
      assert SlotsBelow(f, m, 0) == {};
    }
  }

  /** `count` is the size of the set. */
  lemma CountIsSize(f: Format, m: Bits)
    requires f.Valid() && IsMask(f, m)
    ensures Ones(m, |m|) == |SlotSet(f, m)|
  {
    OnesBelow(f, m, |m|);
    forall j | j in SlotSet(f, m) ensures f.Pos(j) < |m| {}
    assert SlotsBelow(f, m, |m|) == SlotSet(f, m);
  }

  // ---------------------------------------------------------------- iteration

  lemma StepMovesOn(m: Bits)
    requires HasNext(m)
    ensures TrailingZeros(m, 0) < TrailingZeros(Step(m), 0)
  {
    StepBits(m);
  }

  /** The slots that the loop `while has_next: next, step` comes to. */
  function Slots(f: Format, m: Bits): seq<int>
    requires f.bps >= 1
    decreases |m| - TrailingZeros(m, 0)
  {
    if !HasNext(m) then []
    else StepMovesOn(m); [Next(f, m)] + Slots(f, Step(m))
  }

  /** The loop yields every slot of the set once, in increasing order. */
  lemma {:induction false} IterationIsTheSet(f: Format, m: Bits)
    requires f.Valid() && IsMask(f, m)
    ensures forall i, j :: 0 <= i < j < |Slots(f, m)| ==> Slots(f, m)[i] < Slots(f, m)[j]
    ensures forall j :: j in Slots(f, m) <==> At(f, m, j)
    decreases |m| - TrailingZeros(m, 0)
  {
    hide Step, At, Next;
    NoNext(f, m);
    if HasNext(m) {
      StepMovesOn(m);
      NextIsLeast(f, m);
      StepRemovesLeast(f, m);
      IterationIsTheSet(f, Step(m));
      var rest := Slots(f, Step(m));
      forall i | 0 <= i < |rest| ensures Next(f, m) < rest[i] { assert rest[i] in rest; }
    }
  }

  method Iterate(f: Format, m: Bits) returns (found: seq<int>)
    requires f.Valid() && IsMask(f, m)
    ensures forall i, j :: 0 <= i < j < |found| ==> found[i] < found[j]
    ensures forall j :: j in found <==> At(f, m, j)
    ensures found == Slots(f, m)
  {
    hide Step, At, Next, IsMask, TrailingZeros;
    found := [];
    var n := m;
    IterationIsTheSet(f, m);
    while HasNext(n)
      invariant IsMask(f, n) && |n| == |m|
      invariant found + Slots(f, n) == Slots(f, m)
      decreases |n| - TrailingZeros(n, 0)
    {
      found := found + [Next(f, n)];
      StepMovesOn(n);
      StepRemovesLeast(f, n);
      n := Step(n);
    }
    assert found + Slots(f, n) == found;
  }

  // ---------------------------------------------------------------- bitset_mask

  /** `bitset_mask` keeps one flag per slot and works by loops. */
  method BitsetFrom(m: Bits, i: nat) returns (r: Bits)
    requires i < |m|
    ensures |r| == |m| && forall j :: 0 <= j < |m| ==> (r[j] <==> m[j] && j >= i)
  {
    r := m;
    for j := 0 to i
      invariant |r| == |m| && forall k :: 0 <= k < |m| ==> (r[k] <==> m[k] && k >= j)
    {
      r := r[j := false];
    }
  }

  method BitsetAbove(m: Bits, i: int) returns (r: Bits)
    requires -1 <= i < |m|
    ensures |r| == |m| && forall j :: 0 <= j < |m| ==> (r[j] <==> m[j] && j > i)
  {
    r := m;
    for j := 0 to i + 1
      invariant |r| == |m| && forall k :: 0 <= k < |m| ==> (r[k] <==> m[k] && k >= j)
    {
      r := r[j := false];
    }
  }

  method BitsetNext(m: Bits) returns (i: nat)
    requires HasNext(m)
    ensures i == TrailingZeros(m, 0) < |m|
  {
    i := 0;
    while !m[i]
      invariant i <= TrailingZeros(m, 0) < |m|
      decreases |m| - i
    {
      i := i + 1;
    }
  }

  method BitsetStep(m: Bits) returns (r: Bits)
    requires HasNext(m)
    ensures |r| == |m| && forall j :: 0 <= j < |m| ==> (r[j] <==> m[j] && j != TrailingZeros(m, 0))
  {
    var i := BitsetNext(m);
    r := m[i := false];
  }

  method BitsetTruncate(m: Bits) returns (r: Bits)
    ensures |r| == |m| && forall j :: 0 <= j < |m| ==> (r[j] <==> j == TrailingZeros(m, 0))
  {
    r := seq(|m|, _ => false);
    for i := 0 to |m|
      invariant forall j :: 0 <= j < |m| ==> !r[j]
      invariant |r| == |m| && i <= TrailingZeros(m, 0)
    {
      if m[i] {
        r := r[i := true];
        break;
      }
    }
  }

  /** The word mask and the bitset hold the same slots. */
  ghost predicate Agree(f: Format, m: Bits, b: Bits)
    requires f.bps >= 1
  {
    |b| == f.slots && forall i :: 0 <= i < f.slots ==> (b[i] <==> At(f, m, i))
  }

  /** The two kinds of mask have the same least slot, */
  lemma NextAgrees(f: Format, m: Bits, b: Bits)
    requires f.Valid() && IsMask(f, m) && Agree(f, m, b)
    ensures HasNext(m) <==> HasNext(b)
    ensures HasNext(m) ==> Next(f, m) == TrailingZeros(b, 0)
  {
    hide At, IsMask, Next;
    NoNext(f, m);
    AtIsSlot(f, m);
    if HasNext(m) {
      NextIsLeast(f, m);
      assert b[Next(f, m)];
    }
    if HasNext(b) {
      var i :| 0 <= i < |b| && b[i];
      assert At(f, m, i);
    }
  }

  /** stay the same when it is removed, or when everything else is, */
  lemma StepAgrees(f: Format, m: Bits, b: Bits, rest: Bits, first: Bits)
    requires f.Valid() && IsMask(f, m) && Agree(f, m, b) && HasNext(m)
    requires |rest| == |b| && forall j :: 0 <= j < |b| ==> (rest[j] <==> b[j] && j != TrailingZeros(b, 0))
    requires |first| == |b| && forall j :: 0 <= j < |b| ==> (first[j] <==> j == TrailingZeros(b, 0))
    ensures Agree(f, Step(m), rest) && Agree(f, Truncate(m), first)
  {
    hide At, IsMask, Step, Truncate, Next, TrailingZeros;
    NextAgrees(f, m, b);
    StepRemovesLeast(f, m);
  }

  /** and when they are cut off at a slot. */
  lemma CutsAgree(f: Format, m: Bits, b: Bits, i: int, above: Bits, from: Bits)
    requires f.Valid() && IsMask(f, m) && Agree(f, m, b) && -1 <= i < f.slots
    requires |above| == |b| && forall j :: 0 <= j < |b| ==> (above[j] <==> b[j] && j > i)
    requires |from| == |b| && forall j :: 0 <= j < |b| ==> (from[j] <==> b[j] && j >= i)
    ensures Agree(f, Above(f, m, i), above)
    ensures i >= 0 ==> Agree(f, From(f, m, i), from)
  {
    hide At, IsMask, Above, From;
    CutsOff(f, m, i);
  }

  lemma AtIsSlot(f: Format, m: Bits)
    requires f.bps >= 1
    ensures forall i :: At(f, m, i) ==> 0 <= i < f.slots
  {
  }
}
