/** `linear_seq` and `quadratic_seq` of probe_seq.hpp, unaligned (`align == 0`) and aligned,
    and the proof that one cycle of either visits every bucket exactly once. */
module ProbeSeq {
  import opened Pow2

  datatype Shape = Linear(align: nat) | Quadratic(align: nat) {
    ghost predicate Valid() { align == 0 || IsPow2(align) }
  }

  /** `align_pos(x, make_aligned_mask<K>(C))`: the bits of `x` from `K` up to below `C`. */
  function Masked(x: int, K: int, C: int): int
    requires K > 0 && C > 0
  {
    x % C - x % C % K
  }

  /** A sequence is passed around by value and advanced with `+=`. */
  datatype Seq = Seq(shape: Shape, psl: nat, base: int, shift: int) {
    function Next(): int {
      var A := shape.align;
      if A == 0 then (if shape.Linear? then base + psl else base)
      else if shape.Linear? then base + (psl - psl % A) + (psl + shift) % A
      else base + (psl + shift) % A
    }

    function Plus(step: nat): Seq {
      var psl' := psl + step;
      var A := shape.align;
      if shape.Linear? then this.(psl := psl')
      else if A == 0 then this.(psl := psl', base := base + psl')
      else this.(psl := psl', base := base + if psl' % A != 0 then 0 else psl')
    }
  }

  function Start(shape: Shape, pos: int): Seq {
    var A := shape.align;
    if A == 0 then Seq(shape, 0, pos, 0) else Seq(shape, 0, pos - pos % A, pos % A)
  }

  /** The sequence after `j` steps of `K` slots. */
  function After(shape: Shape, pos: int, K: nat, j: nat): Seq {
    if j == 0 then Start(shape, pos) else After(shape, pos, K, j - 1).Plus(K)
  }

  /** The offset of the bucket probed in step `j`. */
  function BucketAt(shape: Shape, pos: int, K: nat, C: nat, j: nat): int
    requires K > 0 && C > 0
  {
    Masked(After(shape, pos, K, j).Next(), K, C)
  }

  // ---------------------------------------------------------------- triangular numbers

  function Tri(j: nat): (t: nat) {
    if j == 0 then 0 else Tri(j - 1) + j
  }

  lemma {:induction false} TriDifference(a: nat, b: nat)
    requires a <= b
    ensures 2 * (Tri(b) - Tri(a)) == (b - a) * (b + a + 1)
    decreases b
  {
    if a < b {
      TriDifference(a, b - 1);
      NextProduct(b - a, b + a);
    }
  }

  lemma NextProduct(d: int, s: int)
    ensures (d - 1) * s + s + d == d * (s + 1)
  {
  }

  lemma NoSmallMultiple(x: int, p: int, z: int)
    requires 0 < x < p
    ensures x != z * p
  {
    if z >= 1 { AtLeastOnce(p, z); } else { assert p * z <= 0; }
  }

  lemma OddFactor(x: nat, y: nat, q: int, n: nat)
    requires x % 2 == 1 && 0 < y < Pow(n)
    ensures x * y != q * Pow(n)
  {
    if x * y == q * Pow(n) {
      var z := OddCancels(x, y, q, n);
      NoSmallMultiple(y, Pow(n), z);
    }
  }

  lemma OddSum(x: nat, y: nat)
    requires (x + y) % 2 == 1
    ensures x % 2 == 1 || y % 2 == 1
  {
  }

  lemma Commute(x: int, y: int)
    ensures x * y == y * x
  {
  }

  /** Of two factors with an odd sum one is odd. */
  lemma MixedFactors(x: nat, y: nat, product: int, q: int, n: nat)
    requires product == x * y && (x + y) % 2 == 1 && 0 < x < Pow(n) && 0 < y < Pow(n)
    ensures product != q * Pow(n)
  {
    hide Pow;
    OddSum(x, y);
    Commute(x, y);
    if x % 2 == 1 { OddFactor(x, y, q, n); } else { OddFactor(y, x, q, n); }
  }

  lemma DoubleTimes(q: int, n: nat)
    ensures q * Pow(n + 1) == 2 * (q * Pow(n))
  {
    var p := Pow(n);
    assert q * (2 * p) == 2 * (q * p);
  }

  /** Below a power of two, triangular numbers are distinct modulo it. */
  lemma TriDistinct(a: nat, b: nat, n: nat, q: int)
    requires a < b < Pow(n)
    ensures Tri(b) - Tri(a) != q * Pow(n)
  {
    hide Tri;
    var x: nat, y: nat := b - a, b + a + 1;
    var d := Tri(b) - Tri(a);
    assert 2 * d == x * y by { TriDifference(a, b); }
    assert x + y == 2 * b + 1;
    assert 2 * d != q * Pow(n + 1) by { MixedFactors(x, y, 2 * d, q, n + 1); }
    DoubleTimes(q, n);
  }

  // ---------------------------------------------------------------- closed form

  /** By how many blocks a sequence has moved on after `u` blocks. */
  function Hop(shape: Shape, u: nat): nat {
    if shape.Linear? then u else Tri(u)
  }

  /** The number of buckets in one aligned block. */
  function BlockSize(shape: Shape, K: nat): (r: nat)
    requires K > 0
    ensures r >= 1
  {
    if shape.align <= K then 1 else shape.align / K
  }

  /** Inside a block of `r` buckets the walk rotates, from block to block it hops. */
  function Index(shape: Shape, r: nat, h: int, j: nat): int
    requires r >= 1
  {
    (h - h % r) + r * Hop(shape, j / r) + (j % r + h) % r
  }

  lemma ScaledMod(j: int, r: int, K: int)
    requires r > 0 && K > 0
    ensures r * K > 0
    ensures (j * K) % (r * K) == (j % r) * K && (j * K) / (r * K) == j / r
  {
    SplitMod(j, 0, r, K);
    assert K * j == j * K && K * (j % r) == (j % r) * K;
  }

  lemma StepBlock(j: int, r: int)
    requires r > 0 && j >= 1
    ensures j % r == 0 ==> (j - 1) / r == j / r - 1
    ensures j % r != 0 ==> (j - 1) / r == j / r
  {
    var u, v := j / r, j % r;
    if v == 0 {
      assert j - 1 == r * (u - 1) + (r - 1) by { assert r * (u - 1) == r * u - r; }
      DivMod(j - 1, r, u - 1, r - 1);
    } else {
      DivMod(j - 1, r, u, v - 1);
    }
  }

  lemma {:induction false} AfterPsl(shape: Shape, pos: int, K: nat, j: nat)
    ensures After(shape, pos, K, j).psl == j * K
    ensures After(shape, pos, K, j).shape == shape
    ensures After(shape, pos, K, j).shift == Start(shape, pos).shift
    ensures shape.Linear? ==> After(shape, pos, K, j).base == Start(shape, pos).base
  {
    if j > 0 { AfterPsl(shape, pos, K, j - 1); assert (j - 1) * K + K == j * K; }
  }

  lemma MultipleMod(j: int, m: int, A: int)
    requires A > 0
    ensures (j * (A * m)) % A == 0
  {
    assert j * (A * m) == A * (j * m);
    DivMod(j * (A * m), A, j * m, 0);
  }

  lemma QuadraticStep(shape: Shape, pos: int, K: nat, j: nat)
    requires shape.Quadratic? && j > 0
    ensures After(shape, pos, K, j).base
            == After(shape, pos, K, j - 1).base + (if shape.align != 0 && (j * K) % shape.align != 0 then 0 else j * K)
  {
    AfterPsl(shape, pos, K, j - 1);
    AfterPsl(shape, pos, K, j);
  }

  lemma TriStep(K: nat, j: nat)
    requires j > 0
    ensures K * Tri(j) == K * Tri(j - 1) + j * K
  {
    var t := Tri(j - 1);
    assert K * (t + j) == K * t + j * K;
  }

  /** Without alignment, or with blocks no wider than a bucket, every step is a hop. */
  lemma {:induction false} AfterNarrow(shape: Shape, pos: int, K: nat, m: nat, j: nat)
    requires shape.Quadratic? && K > 0
    requires shape.align == 0 || K == shape.align * m
    ensures After(shape, pos, K, j).base == Start(shape, pos).base + K * Tri(j)
  {
    if j > 0 {
      hide After, Start, Tri;
      AfterNarrow(shape, pos, K, m, j - 1);
      QuadraticStep(shape, pos, K, j);
      if shape.align != 0 { MultipleMod(j, m, shape.align); }
      TriStep(K, j);
    }
  }

  /** With wider blocks the base only moves when a block is complete. */
  lemma {:induction false} AfterWide(shape: Shape, pos: int, K: nat, r: nat, j: nat)
    requires shape.Quadratic? && K > 0 && r > 0 && shape.align == r * K
    ensures After(shape, pos, K, j).base == Start(shape, pos).base + (r * K) * Tri(j / r)
  {
    if j == 0 {
      DivMod(0, r, 0, 0);
    } else {
      hide After, Start, Tri;
      var A := shape.align;
      AfterWide(shape, pos, K, r, j - 1);
      QuadraticStep(shape, pos, K, j);
      ScaledMod(j, r, K);
      StepBlock(j, r);
      if j % r == 0 {
        BlockDone(j, K, A, j / r);
      } else {
        AtLeastOnce(K, j % r);
      }
    }
  }

  lemma BlockDone(j: nat, K: nat, A: nat, u: nat)
    requires A > 0 && (j * K) % A == 0 && (j * K) / A == u && u > 0
    ensures j * K == A * u
    ensures A * Tri(u) == A * Tri(u - 1) + j * K
  {
    assert j * K == A * u;
    TriStep(A, u);
    assert u * A == A * u;
  }

  lemma SplitMod(h: int, low: int, r: int, K: int)
    requires r > 0 && K > 0 && 0 <= low < K
    ensures r * K > 0
    ensures (K * h + low) % (r * K) == K * (h % r) + low
    ensures (K * h + low) / (r * K) == h / r
  {
    var u, v := h / r, h % r;
    Regroup(h, u, v, r, K);
    AtLeastOnce(K, r);
    var rest := r - 1 - v;
    assert K * rest == r * K - K - K * v;
    DivMod(K * h + low, r * K, u, K * v + low);
  }

  lemma Regroup(h: int, u: int, v: int, r: int, K: int)
    requires h == r * u + v
    ensures K * h == (r * K) * u + K * v
  {
    assert K * (r * u + v) == K * (r * u) + K * v;
    assert K * (r * u) == (r * K) * u;
  }

  lemma ModOfSum(j: int, h: int, r: int)
    requires r > 0
    ensures (j + h % r) % r == (j % r + h) % r == (j + h) % r
  {
    var u, v := (j + h) / r, (j + h) % r;
    var a, b := h / r, j / r;
    assert j + h % r == r * (u - a) + v by { assert r * (u - a) == r * u - r * a; }
    assert j % r + h == r * (u - b) + v by { assert r * (u - b) == r * u - r * b; }
    DivMod(j + h % r, r, u - a, v);
    DivMod(j % r + h, r, u - b, v);
  }

  lemma NarrowIndex(shape: Shape, h: int, j: nat)
    ensures Index(shape, 1, h, j) == h + Hop(shape, j)
  {
    assert j / 1 == j && j % 1 == 0 && h % 1 == 0 && (j % 1 + h) % 1 == 0;
  }

  lemma NextNarrow(shape: Shape, pos: int, K: nat, m: nat, j: nat)
    requires K > 0 && (shape.align == 0 || K == shape.align * m)
    ensures After(shape, pos, K, j).Next() == pos + K * Hop(shape, j)
  {
    hide After, Tri;
    AfterPsl(shape, pos, K, j);
    if shape.Quadratic? { AfterNarrow(shape, pos, K, m, j); }
    assert j * K == K * j;
    var A := shape.align;
    if A != 0 {
      MultipleMod(j, m, A);
      var psl := j * K;
      DivMod(psl + pos % A, A, psl / A, pos % A);
    }
  }

  /** The part of the offset that lies inside the block. */
  lemma WideOffset(pos: int, K: nat, r: nat, j: nat)
    requires K > 0 && r > 0
    ensures r * K > 0
    ensures pos % (r * K) == K * (pos / K % r) + pos % K
    ensures (j * K + pos % (r * K)) % (r * K) == K * ((j % r + pos / K) % r) + pos % K
  {
    var h, low := pos / K, pos % K;
    assert pos == K * h + low;
    SumTimes(K, j, h % r);
    SplitMod(h, low, r, K);
    ModOfSum(j, h, r);
    SplitMod(j + h % r, low, r, K);
  }

  lemma SumTimes(K: int, x: int, y: int)
    ensures K * (x + y) == x * K + K * y
  {
  }

  lemma NextWideSum(shape: Shape, pos: int, K: nat, r: nat, j: nat)
    requires K > 0 && r > 0 && shape.align == r * K
    ensures After(shape, pos, K, j).Next()
            == (pos - pos % (r * K)) + (r * K) * Hop(shape, j / r) + (j * K + pos % (r * K)) % (r * K)
  {
    hide After, Tri;
    AfterPsl(shape, pos, K, j);
    if shape.Quadratic? { AfterWide(shape, pos, K, r, j); } else { ScaledMod(j, r, K); LinearBlock(j, r, K); }
  }

  lemma NextWide(shape: Shape, pos: int, K: nat, r: nat, j: nat)
    requires K > 0 && r > 0 && shape.align == r * K
    ensures After(shape, pos, K, j).Next() == K * Index(shape, r, pos / K, j) + pos % K
  {
    hide After, Hop, Seq.Next;
    var next, rest := After(shape, pos, K, j).Next(), (j * K + pos % (r * K)) % (r * K);
    var blocks := (pos - pos % (r * K)) + (r * K) * Hop(shape, j / r);
    assert next == blocks + rest by { NextWideSum(shape, pos, K, r, j); }
    var x := (j % r + pos / K) % r;
    assert rest == K * x + pos % K by { WideOffset(pos, K, r, j); }
    assert blocks + (K * x + pos % K) == K * Index(shape, r, pos / K, j) + pos % K by {
      WideOffset(pos, K, r, j);
      GatherIndex(pos, pos / K, pos % K, r, K, Hop(shape, j / r), x);
    }
  }

  lemma LinearBlock(j: nat, r: nat, K: nat)
    requires K > 0 && r > 0
    ensures j * K - (j % r) * K == (r * K) * (j / r)
  {
    var u, v := j / r, j % r;
    assert j == r * u + v;
    calc { j * K - v * K; (r * u + v) * K - v * K; (r * K) * u; }
  }

  lemma GatherIndex(pos: int, h: int, low: int, r: nat, K: nat, hop: nat, x: int)
    requires K > 0 && r > 0 && r * K > 0 && pos == K * h + low && pos % (r * K) == K * (h % r) + low
    ensures (pos - pos % (r * K)) + (r * K) * hop + (K * x + low) == K * ((h - h % r) + r * hop + x) + low
  {
    var v := h % r;
    calc {
      K * ((h - v) + r * hop + x);
      K * (h - v) + K * (r * hop) + K * x;
      K * h - K * v + (r * K) * hop + K * x;
    }
  }

  lemma NextIndexNarrow(shape: Shape, pos: int, K: nat, j: nat)
    requires K > 0 && shape.Valid() && IsPow2(K) && shape.align <= K
    ensures After(shape, pos, K, j).Next() == K * Index(shape, 1, pos / K, j) + pos % K
  {
    hide After, Hop, Seq.Next;
    var m := 0;
    if shape.align != 0 { m := PowDivides(shape.align, K); }
    NextNarrow(shape, pos, K, m, j);
    NarrowIndex(shape, pos / K, j);
    Distribute(K, pos / K, Hop(shape, j));
  }

  /** The block size covers every relation of alignment and bucket size. */
  lemma NextIndex(shape: Shape, pos: int, K: nat, j: nat)
    requires K > 0 && shape.Valid() && IsPow2(K)
    ensures IsPow2(BlockSize(shape, K))
    ensures After(shape, pos, K, j).Next() == K * Index(shape, BlockSize(shape, K), pos / K, j) + pos % K
  {
    hide After, Index, Seq.Next;
    if shape.align <= K {
      assert Pow(0) == 1;
      NextIndexNarrow(shape, pos, K, j);
    } else {
      var m := PowDivides(K, shape.align);
      assert BlockSize(shape, K) == m by { DivMod(shape.align, K, m, 0); }
      assert m * K == K * m;
      NextWide(shape, pos, K, m, j);
    }
  }

  lemma Distribute(K: int, a: int, b: int)
    ensures K * (a + b) == K * a + K * b
  {
  }

  /** Masking keeps the bucket index modulo the number of buckets. */
  lemma BucketIndex(shape: Shape, pos: int, K: nat, n: nat, j: nat)
    requires K > 0 && n > 0 && shape.Valid() && IsPow2(K)
    ensures K * n > 0
    ensures BucketAt(shape, pos, K, K * n, j) == K * (Index(shape, BlockSize(shape, K), pos / K, j) % n)
  {
    var x, low := Index(shape, BlockSize(shape, K), pos / K, j), pos % K;
    NextIndex(shape, pos, K, j);
    SplitMod(x, low, n, K);
    assert n * K == K * n;
    DivMod(K * (x % n) + low, K, x % n, low);
  }

  // ---------------------------------------------------------------- one cycle is a permutation

  lemma EqualMod(a: int, b: int, m: int) returns (q: int)
    requires m > 0 && a % m == b % m
    ensures b - a == q * m
  {
    q := b / m - a / m;
    assert b == m * (b / m) + b % m && a == m * (a / m) + a % m;
    assert m * (b / m) - m * (a / m) == q * m;
  }

  lemma HopDistinct(shape: Shape, a: nat, b: nat, c: int, m: nat)
    requires IsPow2(m) && a < m && b < m && a != b
    ensures (c + Hop(shape, a)) % m != (c + Hop(shape, b)) % m
  {
    var lo, hi := if a < b then a else b, if a < b then b else a;
    if (c + Hop(shape, lo)) % m == (c + Hop(shape, hi)) % m {
      var q := EqualMod(c + Hop(shape, lo), c + Hop(shape, hi), m);
      if shape.Linear? {
        NoSmallMultiple(hi - lo, m, q);
      } else {
        var e: nat :| m == Pow(e);
        TriDistinct(lo, hi, e, q);
      }
    }
  }

  lemma RotationDistinct(a: nat, b: nat, h: int, r: nat)
    requires a < r && b < r && a != b
    ensures (a + h) % r != (b + h) % r
  {
    if (a + h) % r == (b + h) % r {
      var q := EqualMod(a + h, b + h, r);
      if a < b {
        NoSmallMultiple(b - a, r, q);
      } else {
        assert a - b == (-q) * r;
        NoSmallMultiple(a - b, r, -q);
      }
    }
  }

  lemma AddMultiple(x: int, n: int, y: int)
    requires n > 0
    ensures (x + n * y) % n == x % n
  {
    assert x == n * (x / n) + x % n;
    Distribute(n, x / n, y);
    DivMod(x + n * y, n, x / n + y, x % n);
  }

  /** Blocks at least as long as the table: the whole cycle is one rotation. */
  lemma OneBlock(shape: Shape, r: nat, n: nat, m: nat, h: int, j: nat)
    requires n > 0 && r == n * m && m > 0 && j < n
    ensures Index(shape, r, h, j) % n == (j + h) % n
  {
    AtLeastOnce(n, m);
    DivMod(j, r, 0, j);
    assert Hop(shape, 0) == 0;
    var a, b := h / r, (j + h) / r;
    var y := m * (a - b);
    assert n * y == r * (a - b);
    Distribute(r, a, -b);
    assert Index(shape, r, h, j) == (j + h) + n * y;
    AddMultiple(j + h, n, y);
  }

  /** Which block of `r` buckets step `j` is in, and which bucket of that block. */
  function Block(shape: Shape, r: nat, m: nat, h: int, j: nat): int
    requires r > 0 && m > 0
  {
    (h / r + Hop(shape, j / r)) % m
  }

  function Turn(r: nat, h: int, j: nat): (s: int)
    requires r > 0
    ensures 0 <= s < r
  {
    (j % r + h) % r
  }

  lemma IndexBlocks(shape: Shape, r: nat, h: int, j: nat)
    requires r > 0
    ensures Index(shape, r, h, j) == r * (h / r + Hop(shape, j / r)) + Turn(r, h, j)
  {
    hide Hop;
    var a, hop := h / r, Hop(shape, j / r);
    assert h - h % r == r * a;
    Distribute(r, a, hop);
  }

  /** Shorter blocks: the block is a hop modulo the number of blocks, the bucket inside it a rotation. */
  lemma ManyBlocks(shape: Shape, r: nat, n: nat, m: nat, h: int, j: nat)
    requires r > 0 && m > 0 && n == r * m && n > 0
    ensures Index(shape, r, h, j) % n == r * Block(shape, r, m, h, j) + Turn(r, h, j)
  {
    hide Hop, Index, Turn;
    IndexBlocks(shape, r, h, j);
    var x, s := h / r + Hop(shape, j / r), Turn(r, h, j);
    assert m * r == n;
    SplitMod(x, s, m, r);
  }

  /** Equal sums of block and rotation mean equal blocks and equal rotations. */
  lemma SumsDiffer(r: nat, bi: int, si: int, bj: int, sj: int)
    requires 0 <= si < r && 0 <= sj < r && (bi != bj || si != sj)
    ensures r * bi + si != r * bj + sj
  {
    DivMod(r * bi + si, r, bi, si);
    DivMod(r * bj + sj, r, bj, sj);
  }

  lemma BlocksDistinct(shape: Shape, r: nat, m: nat, h: int, i: nat, j: nat)
    requires r > 0 && IsPow2(m) && m > 0 && i < r * m && j < r * m && i != j
    ensures Block(shape, r, m, h, i) != Block(shape, r, m, h, j) || Turn(r, h, i) != Turn(r, h, j)
  {
    hide Hop;
    if i % r != j % r {
      RotationDistinct(i % r, j % r, h, r);
    } else {
      BelowQuotient(i, r, m);
      BelowQuotient(j, r, m);
      assert i / r != j / r by { assert i == r * (i / r) + i % r && j == r * (j / r) + j % r; }
      HopDistinct(shape, i / r, j / r, h / r, m);
    }
  }

  lemma ManyBlocksDistinct(shape: Shape, r: nat, n: nat, m: nat, h: int, i: nat, j: nat)
    requires r > 0 && IsPow2(m) && m > 0 && n == r * m && i < n && j < n && i != j
    ensures Index(shape, r, h, i) % n != Index(shape, r, h, j) % n
  {
    hide Index, Block, Turn;
    ManyBlocks(shape, r, n, m, h, i);
    ManyBlocks(shape, r, n, m, h, j);
    BlocksDistinct(shape, r, m, h, i, j);
    SumsDiffer(r, Block(shape, r, m, h, i), Turn(r, h, i), Block(shape, r, m, h, j), Turn(r, h, j));
  }

  lemma IndexDistinct(shape: Shape, r: nat, n: nat, h: int, i: nat, j: nat)
    requires IsPow2(r) && IsPow2(n) && i < n && j < n && i != j
    ensures Index(shape, r, h, i) % n != Index(shape, r, h, j) % n
  {
    hide Index;
    if n <= r {
      var m := PowDivides(n, r);
      OneBlock(shape, r, n, m, h, i);
      OneBlock(shape, r, n, m, h, j);
      RotationDistinct(i, j, h, n);
    } else {
      var m := PowDivides(r, n);
      ManyBlocksDistinct(shape, r, n, m, h, i, j);
    }
  }

  lemma BelowQuotient(j: nat, r: nat, m: nat)
    requires r > 0 && j < r * m
    ensures 0 <= j / r < m
  {
    var u := j / r;
    assert j == r * u + j % r;
    assert r * (u - m) == r * u - r * m;
    if u > m { AtLeastOnce(r, u - m); }
  }

  /** Probe coverage: the first `n` masked offsets visit each of the `n` buckets exactly once,
      for linear and quadratic sequences, every alignment and every starting position. */
  lemma Coverage(shape: Shape, pos: int, K: nat, n: nat)
    requires IsPow2(K) && IsPow2(n) && K > 0 && n > 0 && shape.Valid()
    ensures K * n > 0
    ensures forall j: nat :: 0 <= BucketAt(shape, pos, K, K * n, j) / K < n && BucketAt(shape, pos, K, K * n,
            j) % K == 0
    ensures forall i: nat, j: nat :: i < j < n ==>
              BucketAt(shape, pos, K, K * n, i) != BucketAt(shape, pos, K, K * n, j)
    ensures forall b :: 0 <= b < n ==> exists j: nat :: j < n && BucketAt(shape, pos, K, K * n, j) == K * b
  {
    var r, h := BlockSize(shape, K), pos / K;
    NextIndex(shape, pos, K, 0);
    AtLeastOnce(K, n);
    forall j: nat
      ensures BucketAt(shape, pos, K, K * n, j) == K * (Index(shape, r, h, j) % n)
      ensures 0 <= BucketAt(shape, pos, K, K * n, j) / K < n && BucketAt(shape, pos, K, K * n, j) % K == 0
    {
      BucketIndex(shape, pos, K, n, j);
      DivMod(BucketAt(shape, pos, K, K * n, j), K, Index(shape, r, h, j) % n, 0);
    }
    forall i: nat, j: nat | i < j < n
      ensures BucketAt(shape, pos, K, K * n, i) != BucketAt(shape, pos, K, K * n, j)
    {
      IndexDistinct(shape, r, n, h, i, j);
      DistinctMultiples(K, Index(shape, r, h, i) % n, Index(shape, r, h, j) % n);
    }
    var f := (j: int) => if j < 0 then 0 else Index(shape, r, h, j) % n;
    forall i, j | 0 <= i < j < n ensures f(i) != f(j) { IndexDistinct(shape, r, n, h, i, j); }
    forall b | 0 <= b < n ensures exists j: nat :: j < n && BucketAt(shape, pos, K, K * n, j) == K * b {
      var j := Pigeonhole(f, n, b);
      assert BucketAt(shape, pos, K, K * n, j) == K * b;
    }
  }

  lemma DistinctMultiples(K: nat, a: nat, b: nat)
    requires K > 0 && a != b
    ensures K * a != K * b
  {
    DivMod(K * a, K, a, 0);
    DivMod(K * b, K, b, 0);
  }

  /** Alignment to no more than a bucket makes no difference. */
  lemma NarrowAlignmentIsUnaligned(shape: Shape, pos: int, K: nat, n: nat, j: nat)
    requires IsPow2(K) && K > 0 && n > 0 && shape.Valid() && shape.align <= K
    ensures K * n > 0
    ensures BucketAt(shape, pos, K, K * n, j) == BucketAt(shape.(align := 0), pos, K, K * n, j)
  {
    hide BucketAt;
    BucketIndex(shape, pos, K, n, j);
    BucketIndex(shape.(align := 0), pos, K, n, j);
  }

  // ---------------------------------------------------------------- the order of the probes

  lemma HopIs(shape: Shape, u: nat)
    ensures Hop(shape, u) == if shape.Linear? then u else u * (u + 1) / 2
  {
    if shape.Quadratic? { TriDifference(0, u); }
  }

  /** Unaligned sequences: the linear one goes from bucket to bucket, the quadratic one takes one
      more bucket in every step. */
  lemma UnalignedPath(shape: Shape, pos: int, K: nat, n: nat, j: nat)
    requires K > 0 && n > 0 && IsPow2(K) && shape.align == 0
    ensures K * n > 0
    ensures BucketAt(shape, pos, K, K * n, j)
            == K * ((pos / K + if shape.Linear? then j else j * (j + 1) / 2) % n)
  {
    hide BucketAt, Hop, Index;
    BucketIndex(shape, pos, K, n, j);
    NarrowIndex(shape, pos / K, j);
    HopIs(shape, j);
  }

  /** Which block of `r` buckets an aligned sequence is in after `u` blocks of a table of `m`: it starts in its
      home block and goes on to the next block, or takes one more block every time. */
  function BlockOf(shape: Shape, pos: int, K: nat, r: nat, m: nat, u: nat): int
    requires K > 0 && r > 0 && m > 0
  {
    (pos / K / r + if shape.Linear? then u else u * (u + 1) / 2) % m
  }

  lemma AlignedSize(shape: Shape, K: nat, r: nat)
    requires K > 0 && r > 0 && shape.align == r * K
    ensures BlockSize(shape, K) == r
  {
    if r > 1 {
      ManyBuckets(r, K);
      DivMod(r * K, K, r, 0);
    }
  }

  lemma ManyBuckets(r: nat, K: nat)
    requires r > 1 && K > 0
    ensures r * K > K && r * K == K * r
  {
    assert (r - 1) * K >= 1 by { AtLeastOnce(K, r - 1); }
    assert r * K == (r - 1) * K + K;
  }

  lemma StepInBlock(r: nat, u: nat, v: nat) returns (j: nat)
    requires v < r
    ensures j == u * r + v && j / r == u && j % r == v
  {
    j := u * r + v;
    DivMod(j, r, u, v);
  }

  /** The `v`-th step in the `u`-th block: the block is walked from the home bucket's place on, round and
      round. */
  lemma AlignedPath(shape: Shape, pos: int, K: nat, r: nat, m: nat, u: nat, v: nat)
    requires K > 0 && r > 0 && m > 0 && v < r && IsPow2(K) && shape.Valid() && shape.align == r * K
    ensures r * m > 0 && K * (r * m) > 0 && u * r + v >= 0
    ensures BucketAt(shape, pos, K, K * (r * m), u * r + v)
            == K * (r * BlockOf(shape, pos, K, r, m, u) + (v + pos / K) % r)
  {
    hide BucketAt, Hop, BlockSize, Index;
    AlignedSize(shape, K, r);
    AtLeastOnce(r, m);
    var n: nat := r * m;
    var j := StepInBlock(r, u, v);
    BucketIndex(shape, pos, K, n, j);
    HopIs(shape, u);
    ManyBlocks(shape, r, n, m, pos / K, j);
  }

  /** An alignment that takes in the whole table makes it one block. */
  lemma WholeTablePath(shape: Shape, pos: int, K: nat, n: nat, m: nat, j: nat)
    requires K > 0 && n > 0 && m > 0 && j < n && IsPow2(K) && shape.Valid() && shape.align == (n * m) * K
    ensures K * n > 0 && BucketAt(shape, pos, K, K * n, j) == K * ((pos / K + j) % n)
  {
    hide BucketAt, Hop, BlockSize, Index;
    AtLeastOnce(n, m);
    AlignedSize(shape, K, n * m);
    BucketIndex(shape, pos, K, n, j);
    OneBlock(shape, n * m, n, m, pos / K, j);
  }

  /** So every `r` steps visit each bucket of one block. */
  lemma BlockIsCovered(shape: Shape, pos: int, K: nat, r: nat, m: nat, u: nat, x: nat) returns (v: nat)
    requires K > 0 && r > 0 && m > 0 && x < r && IsPow2(K) && shape.Valid() && shape.align == r * K
    ensures v < r && r * m > 0 && K * (r * m) > 0 && u * r + v >= 0
    ensures BucketAt(shape, pos, K, K * (r * m), u * r + v) == K * (r * BlockOf(shape, pos, K, r, m, u) + x)
  {
    v := (x - pos / K) % r;
    RotateBack(x, pos / K, r);
    AlignedPath(shape, pos, K, r, m, u, v);
  }

  lemma RotateBack(x: nat, h: int, r: nat)
    requires r > 0 && x < r
    ensures ((x - h) % r + h) % r == x
  {
    var q, v := (x - h) / r, (x - h) % r;
    assert x - h == r * q + v;
    assert v + h == r * (-q) + x;
    DivMod(v + h, r, -q, x);
  }
}
