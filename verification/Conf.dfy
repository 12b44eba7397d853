/** Capacities, biases and the reserve of empty slots (conf.hpp). */
module Conf {
  import opened Pow2

  const MIN_GROW_BIAS := 2
  const MIN_SCRUB_BIAS := 2
  const MIN_SHRINK_BIAS := 3
  const CACHE_LINE_SIZE := 64

  function Max(a: int, b: int): int { if a < b then b else a }

  /** `bit_ceil`: the smallest power of two that is not below `x`. */
  function BitCeil(x: nat): (r: nat)
    ensures r >= x && r >= 1
    ensures x > 1 ==> r < 2 * x
  {
    if x <= 1 then 1 else 2 * BitCeil((x + 1) / 2)
  }

  lemma {:induction false} BitCeilIsPow2(x: nat)
    ensures IsPow2(BitCeil(x))
  {
    if x <= 1 {
      assert Pow(0) == 1;
    } else {
      BitCeilIsPow2((x + 1) / 2);
      DoublePow(BitCeil((x + 1) / 2));
    }
  }

  lemma BitCeilLeast(x: nat, p: nat)
    requires IsPow2(p) && x <= p
    ensures BitCeil(x) <= p
  {
    BitCeilIsPow2(x);
    if p < BitCeil(x) { NextPow(p, BitCeil(x)); }
  }

  /** The settings a map is constructed with. */
  datatype Sizing = Sizing(kernelSize: nat, minCapacity: nat, initCapacity: nat, scrubBias: nat, growBias: nat,
    shrinkBias: nat) {
    function MinCapacityLimit(): nat { Max(BitCeil(growBias), kernelSize) }

    predicate IsValid() { minCapacity >= MinCapacityLimit() }

    /** What every sequence of setter calls keeps. */
    ghost predicate WellFormed() {
      && kernelSize > 0 && IsPow2(kernelSize)
      && IsPow2(minCapacity) && IsPow2(initCapacity) && minCapacity <= initCapacity
      && MIN_GROW_BIAS <= growBias <= CACHE_LINE_SIZE
      && MIN_SCRUB_BIAS <= scrubBias <= CACHE_LINE_SIZE
      && MIN_SHRINK_BIAS <= shrinkBias <= CACHE_LINE_SIZE
    }

    /** What a map may rely on: its constructor rejects settings that are not valid. */
    ghost predicate Good() { WellFormed() && IsValid() }

    function GrowThreshold(capacity: nat): nat
      requires growBias > 0
    {
      Max(capacity, minCapacity) / growBias
    }

    predicate ShouldGrowPrecalc(numEmpty: int, growThreshold: int) { numEmpty <= growThreshold }

    predicate ShouldScrub(capacity: int, numTombstone: int) { capacity <= numTombstone * scrubBias }

    predicate ShouldShrink(capacity: int, numEmpty: int, numTombstone: int) {
      capacity > minCapacity && (capacity - (numEmpty + numTombstone)) * shrinkBias <= capacity
    }

    /** The capacity that `resize_` settles on for a table of `size` entries. */
    function ResizeTarget(size: nat, want: nat): nat
      requires growBias > 0
    {
      Max(Max(want, minCapacity), BitCeil(size + GrowThreshold(BitCeil(size))))
    }
  }

  lemma QuotientPositive(x: nat, b: nat)
    requires 0 < b <= x
    ensures x / b >= 1
  {
    var q := (x - b) / b;
    assert b * (q + 1) == b * q + b;
    DivMod(x, b, q + 1, (x - b) % b);
  }

  lemma ThresholdPositive(c: Sizing, capacity: nat)
    requires c.Good()
    ensures c.growBias > 0 && c.GrowThreshold(capacity) >= 1
  {
    QuotientPositive(Max(capacity, c.minCapacity), c.growBias);
  }

  lemma ThresholdFits(c: Sizing, capacity: nat)
    requires c.Good() && capacity >= c.minCapacity
    ensures c.GrowThreshold(capacity) <= capacity
  {
    HalfCovers(capacity, c.growBias);
  }

  lemma HalfCovers(x: nat, bias: nat)
    requires bias >= 2
    ensures 2 * (x / bias) <= x
  {
    var q := x / bias;
    assert x == bias * q + x % bias;
    assert (bias - 2) * q >= 0;
    assert bias * q == 2 * q + (bias - 2) * q;
  }

  /** Whatever capacity is asked for, the one chosen leaves at least its own threshold empty. */
  lemma ResizeLeavesReserve(c: Sizing, size: nat, want: nat)
    requires c.Good() && IsPow2(want)
    ensures var end := c.ResizeTarget(size, want);
      IsPow2(end) && c.minCapacity <= end && want <= end && c.kernelSize <= end
      && end - size >= c.GrowThreshold(end) >= 1
  {
    var b := BitCeil(size);
    var floor := size + c.GrowThreshold(b);
    var end := c.ResizeTarget(size, want);
    BitCeilIsPow2(size);
    BitCeilIsPow2(floor);
    ThresholdPositive(c, b);
    ThresholdPositive(c, end);
    assert end >= floor;
    BitCeilLeast(size, end);
    if b < end {
      NextPow(b, end);
      HalfCovers(end, c.growBias);
    }
  }

  /** A preemptive doubling always ends strictly above the new threshold. */
  lemma DoublingIsNotFull(c: Sizing, capacity: nat, size: nat)
    requires c.Good() && IsPow2(capacity) && capacity >= c.minCapacity
    requires size < capacity
    ensures var end := c.ResizeTarget(size, 2 * capacity);
      end != capacity && !c.ShouldGrowPrecalc(end - size, c.GrowThreshold(end))
  {
    var end := c.ResizeTarget(size, 2 * capacity);
    HalfCovers(end, c.growBias);
  }

  /** Twice the capacity is never too small for what the table holds. */
  lemma DoublingIsEnough(c: Sizing, capacity: nat, size: nat)
    requires c.Good() && IsPow2(capacity) && capacity >= c.minCapacity && size < capacity
    ensures c.ResizeTarget(size, 2 * capacity) == 2 * capacity
  {
    BitCeilLeast(size, capacity);
    HalfCovers(Max(BitCeil(size), c.minCapacity), c.growBias);
    DoublePow(capacity);
    BitCeilLeast(size + c.GrowThreshold(BitCeil(size)), 2 * capacity);
  }

  /** What a capacity has to be: a power of two, not below what is asked for nor the configured minimum, of which the
      entries leave the share that growing is to prevent from being used up. */
  ghost predicate Enough(c: Sizing, size: nat, want: nat, end: nat) {
    && IsPow2(end) && end >= want && end >= c.minCapacity && c.growBias > 0 && size + end / c.growBias <= end
  }

  /** The capacity that `resize_` settles on is the least one that is enough. */
  lemma ResizeTargetIsLeast(c: Sizing, size: nat, want: nat)
    requires c.Good() && IsPow2(want)
    ensures c.growBias > 0 && Enough(c, size, want, c.ResizeTarget(size, want))
    ensures forall p: nat :: Enough(c, size, want, p) ==> c.ResizeTarget(size, want) <= p
  {
    ResizeLeavesReserve(c, size, want);
    forall p: nat | Enough(c, size, want, p)
      ensures c.ResizeTarget(size, want) <= p { EnoughIsAbove(c, size, want, p); }
  }

  lemma EnoughIsAbove(c: Sizing, size: nat, want: nat, p: nat)
    requires c.Good() && IsPow2(want) && Enough(c, size, want, p)
    ensures c.growBias > 0 && c.ResizeTarget(size, want) <= p
  {
    hide IsPow2, BitCeil;
    var b := BitCeil(size);
    BitCeilIsPow2(size);
    BitCeilLeast(size, p);
    if b < p {
      NextPow(b, p);
      HalfCovers(b, c.growBias);
      HalfCovers(c.minCapacity, c.growBias);
      QuotientOrder(c.minCapacity, p, c.growBias);
    }
    BitCeilLeast(size + c.GrowThreshold(b), p);
  }

  lemma QuotientOrder(x: nat, y: nat, b: nat)
    requires b > 0 && x <= y
    ensures x / b <= y / b
  {
    var q, r := x / b, y / b;
    assert x == b * q + x % b && y == b * r + y % b;
    if q > r {
      assert b * (q - r) == b * q - b * r;
      AtLeastOnce(b, q - r);
    }
  }

  /** When the table is grown: exactly when the empty slots are not more than one in `growBias`. */
  lemma GrowsExactly(c: Sizing, capacity: nat, numEmpty: nat)
    requires c.Good() && capacity >= c.minCapacity
    ensures c.growBias > 0
    ensures c.ShouldGrowPrecalc(numEmpty, c.GrowThreshold(capacity)) <==> numEmpty * c.growBias <= capacity
    ensures numEmpty >= c.GrowThreshold(capacity) <==> (numEmpty + 1) * c.growBias > capacity
  {
    AboveQuotient(numEmpty, capacity, c.growBias);
    AboveQuotient(numEmpty + 1, capacity, c.growBias);
  }

  lemma AboveQuotient(x: nat, y: nat, b: nat)
    requires b > 0
    ensures x <= y / b <==> x * b <= y
  {
    var q := y / b;
    assert y == b * q + y % b;
    if x <= q {
      assert b * (q - x) == b * q - b * x;
      assert b * (q - x) >= 0;
      assert x * b == b * x;
    } else {
      assert b * (x - q) == b * x - b * q;
      AtLeastOnce(b, x - q);
      assert x * b == b * x;
    }
  }

  /** The least capacity that may be configured: the least power of two that holds a bucket and is not below the
      growth bias. */
  lemma MinCapacityLimitIsLeast(c: Sizing)
    requires c.WellFormed()
    ensures var limit := c.MinCapacityLimit();
      && IsPow2(limit) && limit >= c.kernelSize && limit >= c.growBias
      && forall p: nat :: IsPow2(p) && p >= c.kernelSize && p >= c.growBias ==> limit <= p
  {
    BitCeilIsPow2(c.growBias);
    forall p: nat | IsPow2(p) && p >= c.kernelSize && p >= c.growBias ensures c.MinCapacityLimit() <= p {
      BitCeilLeast(c.growBias, p);
    }
  }

  /** The mutable configuration object; a setter that rejects its argument changes nothing. */
  class Builder {
    var value: Sizing

    ghost predicate Valid()
      reads this
    {
      value.WellFormed()
    }

    constructor (s: Sizing)
      requires s.WellFormed()
      ensures Valid() && value == s
    {
      value := s;
    }

    method SetCapacity(initCapacity: nat, minCapacity: nat)
      requires Valid()
      modifies this
      ensures Valid()
      ensures value == old(value).(minCapacity := BitCeil(minCapacity),
              initCapacity := Max(BitCeil(initCapacity), BitCeil(minCapacity)))
    {
      BitCeilIsPow2(initCapacity);
      BitCeilIsPow2(minCapacity);
      var m := BitCeil(minCapacity);
      value := value.(minCapacity := m, initCapacity := Max(BitCeil(initCapacity), m));
    }

    method SetGrowBias(bias: int) returns (ok: bool)
      requires Valid()
      modifies this
      ensures Valid()
      ensures ok <==> MIN_GROW_BIAS <= bias <= CACHE_LINE_SIZE
      ensures value == if ok then old(value).(growBias := bias) else old(value)
    {
      if bias < MIN_GROW_BIAS || bias > CACHE_LINE_SIZE { return false; }
      value := value.(growBias := bias);
      ok := true;
    }

    /** Repairs a configuration whose bias was raised after its capacity was chosen. */
    method AutoAdjust()
      requires Valid()
      modifies this
      ensures Valid() && value.Good()
      ensures old(value).IsValid() ==> value == old(value)
      ensures value == old(value).(minCapacity := value.minCapacity, initCapacity := value.initCapacity)
      ensures value.minCapacity == Max(old(value).minCapacity, old(value).MinCapacityLimit())
      ensures value.initCapacity == Max(old(value).initCapacity, value.minCapacity)
    {
      BitCeilIsPow2(value.growBias);
      var limit := value.MinCapacityLimit();
      var m := value.minCapacity;
      if m < limit { m := limit; }
      value := value.(minCapacity := m, initCapacity := Max(value.initCapacity, m));
    }
  }
}
