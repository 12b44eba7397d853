/** From a kernel's mask to the slots that a search looks at, and why the map may use any of
    the kernels: exact ones, and the fast one with its false positives. */
module Matchers {
  import opened Slots
  import opened Probing
  import opened Kernels
  import W = Words
  import M = Masks

  /** The bits of a word, in a register of `width` bits. */
  function Bits(w: W.Word, width: nat): M.Bits {
    seq(width, p requires 0 <= p < width => p / 8 < |w| && w[p / 8].Bit(p % 8))
  }

  /** Eight bits to a slot, the highest one counts. */
  function UintFormat(n: nat, width: nat): M.Format { M.Format(width, n, 8, true) }

  /** One bit to a slot. */
  function ArrayFormat(n: nat): M.Format { M.Format(n, n, 1, false) }

  lemma FlagBit(b: bool, i: nat)
    requires i < 8
    ensures (if b then W.MSB else W.ZERO).Bit(i) <==> b && i == 7
  {
  }

  /** The register that holds the flags of a word is a mask, and holds the flagged slots. */
  lemma FlagWordIsMask(m: SlotFlags, width: nat)
    requires |m| >= 1 && 8 * |m| <= width
    ensures UintFormat(|m|, width).Valid()
    ensures M.IsMask(UintFormat(|m|, width), Bits(FlagWord(m), width))
    ensures forall i :: M.At(UintFormat(|m|, width), Bits(FlagWord(m), width), i) <==> 0 <= i < |m| && m[i]
  {
    var f, b := UintFormat(|m|, width), Bits(FlagWord(m), width);
    forall p | 0 <= p < width && b[p] ensures p % 8 == 7 && p / 8 < |m| {
      FlagBit(m[p / 8], p % 8);
    }
    forall i | 0 <= i < |m| ensures f.Pos(i) < width && (b[f.Pos(i)] <==> m[i]) {
      assert f.Pos(i) == 8 * i + 7;
      FlagBit(m[i], 7);
    }
  }

  lemma FlagsAreMask(m: SlotFlags)
    requires |m| >= 1
    ensures ArrayFormat(|m|).Valid() && M.IsMask(ArrayFormat(|m|), m)
    ensures forall i :: M.At(ArrayFormat(|m|), m, i) <==> 0 <= i < |m| && m[i]
  {
  }

  /** The slots that a search sees, in the order in which it sees them. */
  function FastMatcher(width: nat): (seq<int>, int) -> seq<int> {
    (k: seq<int>, s: int) => M.Slots(UintFormat(|k|, width), Bits(FastMask(Encode(k), s), width))
  }

  function ExactMatcher(width: nat): (seq<int>, int) -> seq<int> {
    (k: seq<int>, s: int) => M.Slots(UintFormat(|k|, width), Bits(UintMask(Encode(k), s), width))
  }

  function ArrayMatcher(): (seq<int>, int) -> seq<int> {
    (k: seq<int>, s: int) => M.Slots(ArrayFormat(|k|), Mask(k, s))
  }

  lemma FastSlots(k: seq<int>, s: int, width: nat)
    requires ValidStates(k) && 0 <= s < 128 && |k| >= 1 && 8 * |k| <= width
    ensures Matches(k, s, FastMatcher(width)(k, s))
  {
    hide FastMask, UintMask, Encode, FlagWord, Bits;
    FastMaskIsSafe(k, s);
    FlagWordIsMask(Suspects(k, s), width);
    M.IterationIsTheSet(UintFormat(|k|, width), Bits(FastMask(Encode(k), s), width));
    var found := FastMatcher(width)(k, s);
    forall i | 0 <= i < |found| ensures 0 <= found[i] < |k| && IsHash(k[found[i]]) { assert found[i] in found; }
    forall i | 0 <= i < |k| && k[i] == s ensures i in found { assert Mask(k, s)[i]; }
  }

  lemma ExactSlots(k: seq<int>, s: int, width: nat)
    requires ValidStates(k) && 0 <= s < 128 && |k| >= 1 && 8 * |k| <= width
    ensures Matches(k, s, ExactMatcher(width)(k, s))
    ensures forall i :: i in ExactMatcher(width)(k, s) <==> 0 <= i < |k| && k[i] == s
  {
    hide FastMask, UintMask, Encode, FlagWord, Bits;
    MaskAgrees(k, s);
    FlagWordIsMask(Mask(k, s), width);
    M.IterationIsTheSet(UintFormat(|k|, width), Bits(UintMask(Encode(k), s), width));
    var found := ExactMatcher(width)(k, s);
    forall i | 0 <= i < |found| ensures 0 <= found[i] < |k| && k[found[i]] == s { assert found[i] in found; }
  }

  lemma ArraySlots(k: seq<int>, s: int)
    requires 0 <= s < 128 && |k| >= 1
    ensures Matches(k, s, ArrayMatcher()(k, s))
    ensures forall i :: i in ArrayMatcher()(k, s) <==> 0 <= i < |k| && k[i] == s
  {
    FlagsAreMask(Mask(k, s));
    M.IterationIsTheSet(ArrayFormat(|k|), Mask(k, s));
    var found := ArrayMatcher()(k, s);
    forall i | 0 <= i < |found| ensures 0 <= found[i] < |k| && k[found[i]] == s { assert found[i] in found; }
  }

  /** A map may be given any of the three, for any bucket size. */
  lemma EveryKernelWillDo(K: nat, width: nat)
    requires K >= 1 && 8 * K <= width
    ensures GoodMatcher(FastMatcher(width), K) && GoodMatcher(ExactMatcher(width), K) && GoodMatcher(ArrayMatcher(), K)
  {
    forall k: seq<int>, s: int | |k| == K && 0 <= s < 128 && (forall i :: 0 <= i < K ==> ValidState(k[i]))
      ensures Matches(k, s, FastMatcher(width)(k, s)) && Matches(k, s, ExactMatcher(width)(k, s))
              && Matches(k, s, ArrayMatcher()(k, s))
    {
      hide FastMatcher, ExactMatcher, ArrayMatcher, Matches;
      assert ValidStates(k);
      FastSlots(k, s, width);
      ExactSlots(k, s, width);
      ArraySlots(k, s);
    }
  }

  // ---------------------------------------------------------------- markers

  /** The first flagged slot, or their number. */
  function FirstFlag(m: SlotFlags, width: nat): int {
    var b := Bits(FlagWord(m), width);
    if M.HasNext(b) then M.Next(UintFormat(|m|, width), b) else |m|
  }

  lemma FirstFlagIs(m: SlotFlags, width: nat)
    requires |m| >= 1 && 8 * |m| <= width
    ensures 0 <= FirstFlag(m, width) <= |m| && (FirstFlag(m, width) < |m| ==> m[FirstFlag(m, width)])
    ensures forall i :: 0 <= i < FirstFlag(m, width) ==> !m[i]
  {
    hide Bits, FlagWord, M.At, M.IsMask;
    var f, b := UintFormat(|m|, width), Bits(FlagWord(m), width);
    FlagWordIsMask(m, width);
    M.NoNext(f, b);
    assert forall i :: 0 <= i < |m| && m[i] ==> M.At(f, b, i);
    if M.HasNext(b) {
      M.NextIsLeast(f, b);
    }
  }

  /** The word-parallel tests for markers give what the map's loops work with: `has_empty`, the
      first tombstone, the first slot without an entry, and `has_not_tombstone`. */
  lemma MarkerSearches(k: seq<int>, width: nat)
    requires ValidStates(k) && |k| >= 1 && 8 * |k| <= width
    ensures HasAny(UintMaskEmpty(Encode(k))) <==> EMPTY in k
    ensures UintMaskTombstone(Encode(k)) == FlagWord(Mask(k, TOMBSTONE))
            && FirstFlag(Mask(k, TOMBSTONE), width) == StateFrom(k, TOMBSTONE, 0, |k|)
    ensures UintMaskNotHash(Encode(k)) == FlagWord(MaskNotHash(k))
            && FirstFlag(MaskNotHash(k), width) == FreeFrom(k, 0, |k|)
    ensures HasAny(Others(UintMaskTombstone(Encode(k)))) <==> exists i :: 0 <= i < |k| && k[i] != TOMBSTONE
  {
    hide FirstFlag, FlagWord, UintMaskEmpty, UintMaskTombstone, UintMaskNotHash, Encode, Others;
    MarkerMasksAgree(k);
    AnyFlag(Mask(k, EMPTY));
    FirstFlagIs(Mask(k, TOMBSTONE), width);
    FirstFlagIs(MaskNotHash(k), width);
    OthersAre(Mask(k, TOMBSTONE), MaskNot(k, TOMBSTONE));
    AnyFlag(MaskNot(k, TOMBSTONE));
    SomeSlot(k, EMPTY);
    SomeSlot(k, TOMBSTONE);
    var x, y := FirstFlag(Mask(k, TOMBSTONE), width), FirstFlag(MaskNotHash(k), width);
    assert forall i :: 0 <= i < x ==> !Mask(k, TOMBSTONE)[i];
    assert forall i :: 0 <= i < y ==> !MaskNotHash(k)[i];
    FirstIs(k, TOMBSTONE, x);
    FirstFreeIs(k, y);
  }

  lemma SomeSlot(k: seq<int>, s: int)
    ensures (exists i :: 0 <= i < |Mask(k, s)| && Mask(k, s)[i]) <==> s in k
    ensures (exists i :: 0 <= i < |MaskNot(k, s)| && MaskNot(k, s)[i]) <==> exists i :: 0 <= i < |k| && k[i] != s
  {
    if s in k {
      var i :| 0 <= i < |k| && k[i] == s;
      assert Mask(k, s)[i];
    }
    if i :| 0 <= i < |k| && k[i] != s { assert MaskNot(k, s)[i]; }
  }

  lemma FirstIs(k: seq<int>, s: int, x: int)
    requires 0 <= x <= |k| && (x < |k| ==> k[x] == s) && forall i :: 0 <= i < x ==> !Mask(k, s)[i]
    ensures StateFrom(k, s, 0, |k|) == x
  {
    forall i | 0 <= i < x ensures k[i] != s { assert !Mask(k, s)[i]; }
  }

  lemma FirstFreeIs(k: seq<int>, x: int)
    requires 0 <= x <= |k| && (x < |k| ==> !IsHash(k[x])) && forall i :: 0 <= i < x ==> !MaskNotHash(k)[i]
    ensures FreeFrom(k, 0, |k|) == x
  {
    forall i | 0 <= i < x ensures IsHash(k[i]) { assert !MaskNotHash(k)[i]; }
  }
}
