/** Powers of two, division by them, and the pigeonhole principle. */
module Pow2 {
  function Pow(n: nat): (r: nat)
    ensures r >= 1
  {
    if n == 0 then 1 else 2 * Pow(n - 1)
  }

  /** `has_single_bit` */
  ghost predicate IsPow2(x: int) { exists n: nat :: x == Pow(n) }

  lemma {:induction false} PowAdd(a: nat, b: nat)
    ensures Pow(a + b) == Pow(a) * Pow(b)
  {
    if a > 0 {
      PowAdd(a - 1, b);
      Doubled(Pow(a - 1), Pow(b));
    }
  }

  lemma Doubled(x: int, y: int)
    ensures 2 * (x * y) == (2 * x) * y
  {
  }

  lemma {:induction false} PowMonotone(a: nat, b: nat)
    requires a < b
    ensures 2 * Pow(a) <= Pow(b)
    decreases b
  {
    if a < b - 1 { PowMonotone(a, b - 1); }
  }

  /** The smaller of two powers of two divides the larger one, and the quotient is another. */
  lemma PowDivides(a: int, b: int) returns (m: nat)
    requires IsPow2(a) && IsPow2(b) && a <= b
    ensures IsPow2(m) && b == a * m
  {
    var i: nat :| a == Pow(i);
    var j: nat :| b == Pow(j);
    if i > j { PowMonotone(j, i); assert false; }
    PowAdd(i, j - i);
    m := Pow(j - i);
  }

  lemma NextPow(x: int, y: int)
    requires IsPow2(x) && IsPow2(y) && x < y
    ensures 2 * x <= y
  {
    var i: nat :| x == Pow(i);
    var j: nat :| y == Pow(j);
    if j < i { PowMonotone(j, i); assert false; }
    PowMonotone(i, j);
  }

  lemma DoublePow(x: int)
    requires IsPow2(x)
    ensures IsPow2(2 * x)
  {
    var i: nat :| x == Pow(i);
    assert Pow(i + 1) == 2 * x;
  }

  lemma HalfPow(x: int)
    requires IsPow2(x) && x > 1
    ensures IsPow2(x / 2)
  {
    var i: nat :| x == Pow(i);
    assert x / 2 == Pow(i - 1);
  }

  lemma AtLeastOnce(d: int, k: int)
    requires d > 0 && k >= 1
    ensures d * k >= d
  {
    assert d * k == d * (k - 1) + d;
  }

  /** Division with remainder has one answer. */
  lemma DivMod(x: int, d: int, q: int, r: int)
    requires d > 0 && x == d * q + r && 0 <= r < d
    ensures x / d == q && x % d == r
  {
    var q', r' := x / d, x % d;
    assert x == d * q' + r';
    if q > q' {
      assert d * (q - q') == d * q - d * q';
      AtLeastOnce(d, q - q');
    } else if q < q' {
      assert d * (q' - q) == d * q' - d * q;
      AtLeastOnce(d, q' - q);
    }
  }

  lemma OddTimesOdd(x: int, y: int)
    requires x % 2 == 1 && y % 2 == 1
    ensures (x * y) % 2 == 1
  {
    var a, b := x / 2, y / 2;
    assert x * y == 2 * (2 * a * b + a + b) + 1;
  }

  /** An odd factor cannot contribute to a power of two. */
  lemma {:induction false} OddCancels(x: int, y: int, q: int, n: nat) returns (z: int)
    requires x % 2 == 1 && x * y == q * Pow(n)
    ensures y == z * Pow(n)
    decreases n
  {
    if n == 0 {
      z := y;
    } else {
      assert q * Pow(n) == 2 * (q * Pow(n - 1));
      if y % 2 == 1 { OddTimesOdd(x, y); assert false; }
      var h := y / 2;
      assert y == 2 * h;
      assert x * y == 2 * (x * h);
      z := OddCancels(x, h, q, n - 1);
      assert y == z * Pow(n) by { assert 2 * (z * Pow(n - 1)) == z * (2 * Pow(n - 1)); }
    }
  }

  ghost predicate InjectiveBelow(f: int -> int, n: nat) {
    forall i, j :: 0 <= i < j < n ==> f(i) != f(j)
  }

  ghost predicate RangeBelow(f: int -> int, n: nat) {
    forall i :: 0 <= i < n ==> 0 <= f(i) < n
  }

  lemma {:induction false} ImageSize(f: int -> int, n: nat)
    requires InjectiveBelow(f, n)
    ensures |set i | 0 <= i < n :: f(i)| == n
  {
    if n > 0 {
      ImageSize(f, n - 1);
      var before := set i | 0 <= i < n - 1 :: f(i);
      assert f(n - 1) !in before;
      assert (set i | 0 <= i < n :: f(i)) == before + {f(n - 1)};
    }
  }

  ghost function Below(n: nat): (s: set<int>)
    ensures forall i :: i in s <==> 0 <= i < n
    ensures |s| == n
  {
    if n == 0 then {} else Below(n - 1) + {n - 1}
  }

  lemma SubsetOfSameSize(a: set<int>, b: set<int>)
    requires a <= b && |a| == |b|
    ensures a == b
  {
    assert |b - a| == |b| - |a|;
  }

  /** An injective map of `0..n` into itself hits everything. */
  lemma Pigeonhole(f: int -> int, n: nat, b: int) returns (i: int)
    requires InjectiveBelow(f, n) && RangeBelow(f, n) && 0 <= b < n
    ensures 0 <= i < n && f(i) == b
  {
    var image := set i | 0 <= i < n :: f(i);
    ImageSize(f, n);
    SubsetOfSameSize(image, Below(n));
    assert b in image;
    i :| 0 <= i < n && f(i) == b;
  }
}
