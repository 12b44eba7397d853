/** The layout of a table with a real probe sequence: buckets of `K` slots, a power-of-two
    capacity, and an arbitrary hash. */
module MapLayout {
  import opened Pow2
  import opened ProbeSeq
  import opened Slots

  /** `hash_to_pos` and `hash_to_state` of a key's hash.  Any two functions will do, as
      long as fingerprints fit in seven bits. */
  datatype Hashing<!Key(!new)> = Hashing(home: Key -> int, finger: Key -> int) {
    ghost predicate Valid() { forall k {:trigger finger(k)} :: 0 <= finger(k) < 128 }
  }

  function BucketOf(K: nat, p: int): int
    requires K > 0
  {
    p - p % K
  }

  /** The step in which a sequence reaches bucket `b`. */
  function StepOf(shape: Shape, pos: int, K: nat, C: nat, n: nat, b: int, j: nat): (r: nat)
    requires K > 0 && C > 0 && j <= n
    ensures r <= n && (r < n ==> BucketAt(shape, pos, K, C, r) == b)
    ensures forall i: nat :: j <= i < r ==> BucketAt(shape, pos, K, C, i) != b
    decreases n - j
  {
    if j == n || BucketAt(shape, pos, K, C, j) == b then j else StepOf(shape, pos, K, C, n, b, j + 1)
  }

  ghost function Make<Key(!new)>(h: Hashing<Key>, shape: Shape, K: nat, n: nat, C: nat): (g: Layout<Key>)
    requires K > 0 && C > 0
    ensures g.K == K && g.n == n && |g.bucket| == C && g.finger == h.finger
    ensures forall k: Key, j: nat :: g.path(k, j) == BucketAt(shape, h.home(k), K, C, j)
    ensures forall p :: 0 <= p < C ==> g.bucket[p] == BucketOf(K, p)
  {
    Layout(K, n, seq(C, p requires 0 <= p < C => BucketOf(K, p)),
           (k: Key, j: int) => if j < 0 then 0 else BucketAt(shape, h.home(k), K, C, j),
           (k: Key, p: int) => StepOf(shape, h.home(k), K, C, n, BucketOf(K, p), 0),
           h.finger)
  }

  lemma AlignedOffset(b: int, K: nat, n: nat)
    requires K > 0 && b % K == 0 && 0 <= b / K < n
    ensures 0 <= b && b + K <= K * n && BucketOf(K, b) == b
  {
    var u := b / K;
    assert b == K * u;
    assert K * (n - u) == K * n - K * u;
    AtLeastOnce(K, n - u);
    assert K * u >= 0;
  }

  lemma BucketBounds(K: nat, n: nat, p: int)
    requires K > 0 && 0 <= p < K * n
    ensures 0 <= BucketOf(K, p) <= p < BucketOf(K, p) + K <= K * n
    ensures BucketOf(K, p) == K * (p / K) && 0 <= p / K < n
  {
    BelowQuotient(p, K, n);
    var b := BucketOf(K, p);
    DivMod(b, K, p / K, 0);
    AlignedOffset(b, K, n);
  }

  lemma SameBucket(K: nat, p: int, q: int)
    requires K > 0 && BucketOf(K, p) <= q < BucketOf(K, p) + K
    ensures BucketOf(K, q) == BucketOf(K, p)
  {
    assert p == K * (p / K) + p % K;
    DivMod(q, K, p / K, q - BucketOf(K, p));
  }

  lemma BucketsAreGood<Key(!new)>(h: Hashing<Key>, shape: Shape, K: nat, n: nat)
    requires K > 0 && K * n > 0
    ensures GoodBuckets(Make(h, shape, K, n, K * n))
  {
    var g := Make(h, shape, K, n, K * n);
    forall p | 0 <= p < |g.bucket| ensures 0 <= g.bucket[p] <= p < g.bucket[p] + g.K <= |g.bucket| {
      BucketBounds(K, n, p);
    }
    forall p, q | 0 <= p < |g.bucket| && g.bucket[p] <= q < g.bucket[p] + g.K ensures g.bucket[q] == g.bucket[p] {
      BucketBounds(K, n, p);
      SameBucket(K, p, q);
    }
  }

  /** Probing one key: its path and its ranks are inverse to each other. */
  lemma PathIsGood(shape: Shape, pos: int, K: nat, n: nat, j: nat)
    requires IsPow2(K) && IsPow2(n) && K > 0 && n > 0 && K * n > 0 && shape.Valid() && j < n
    ensures var b := BucketAt(shape, pos, K, K * n, j);
      0 <= b && b + K <= K * n && BucketOf(K, b) == b && StepOf(shape, pos, K, K * n, n, b, 0) == j
  {
    hide BucketAt;
    Coverage(shape, pos, K, n);
    var b := BucketAt(shape, pos, K, K * n, j);
    AlignedOffset(b, K, n);
    var r := StepOf(shape, pos, K, K * n, n, b, 0);
    assert r <= j && BucketAt(shape, pos, K, K * n, r) == b;
  }

  lemma RankIsGood(shape: Shape, pos: int, K: nat, n: nat, p: int)
    requires IsPow2(K) && IsPow2(n) && K > 0 && n > 0 && K * n > 0 && shape.Valid() && 0 <= p < K * n
    ensures var r := StepOf(shape, pos, K, K * n, n, BucketOf(K, p), 0);
      r < n && BucketAt(shape, pos, K, K * n, r) == BucketOf(K, p)
    ensures BucketOf(K, BucketOf(K, p)) == BucketOf(K, p)
  {
    hide BucketAt;
    Coverage(shape, pos, K, n);
    BucketBounds(K, n, p);
    SameBucket(K, p, BucketOf(K, p));
    var j: nat :| j < n && BucketAt(shape, pos, K, K * n, j) == K * (p / K);
    assert StepOf(shape, pos, K, K * n, n, BucketOf(K, p), 0) <= j;
  }

  lemma LayoutIsGood<Key(!new)>(h: Hashing<Key>, shape: Shape, K: nat, n: nat)
    requires IsPow2(K) && IsPow2(n) && K > 0 && n > 0 && K * n > 0 && shape.Valid() && h.Valid()
    ensures GoodLayout(Make(h, shape, K, n, K * n))
  {
    hide BucketAt, StepOf;
    var g := Make(h, shape, K, n, K * n);
    BucketsAreGood(h, shape, K, n);
    forall k: Key, j | 0 <= j < g.n
      ensures 0 <= g.path(k, j) < |g.bucket| && g.bucket[g.path(k, j)] == g.path(k, j) && g.rank(k, g.path(k, j)) == j
    {
      PathIsGood(shape, h.home(k), K, n, j);
    }
    forall k: Key, p | 0 <= p < |g.bucket|
      ensures 0 <= g.rank(k, p) < g.n && g.path(k, g.rank(k, p)) == g.bucket[p]
              && g.rank(k, g.bucket[p]) == g.rank(k, p)
    {
      RankIsGood(shape, h.home(k), K, n, p);
    }
    forall k: Key ensures 0 <= g.finger(k) < 128 {}
  }

  /** The offset that a search computes in step `j` is the one the layout speaks of. */
  lemma PathOffset<Key(!new)>(h: Hashing<Key>, shape: Shape, K: nat, n: nat, C: nat, g: Layout<Key>, key: Key, j: nat)
    requires K > 0 && C > 0 && g == Make(h, shape, K, n, C)
    ensures g.path(key, j) == Masked(After(shape, h.home(key), K, j).Next(), K, C)
  {
    assert g.path(key, j) == BucketAt(shape, h.home(key), K, C, j);
  }

  /** From one bucket to the next in slot order, or to the end of the table. */
  lemma NextBucket<Key(!new)>(h: Hashing<Key>, shape: Shape, K: nat, n: nat, C: nat, g: Layout<Key>, off: int)
    requires K > 0 && C > 0 && C == K * n && g == Make(h, shape, K, n, C)
    requires 0 <= off < C && g.bucket[off] == off
    ensures off + K <= C && (off + K < C ==> g.bucket[off + K] == off + K)
  {
    BucketBounds(K, n, off);
    assert (off + K) % K == 0 by { DivMod(off + K, K, off / K + 1, 0); }
  }

  lemma FirstBucket<Key(!new)>(h: Hashing<Key>, shape: Shape, K: nat, n: nat, C: nat, g: Layout<Key>)
    requires K > 0 && C > 0 && g == Make(h, shape, K, n, C)
    ensures g.bucket[0] == 0
  {
  }

  /** The bucket of a slot begins at the next multiple of `K` below it. */
  lemma BucketStart<Key(!new)>(h: Hashing<Key>, shape: Shape, K: nat, n: nat, C: nat, g: Layout<Key>, p: int)
    requires K > 0 && C > 0 && C == K * n && g == Make(h, shape, K, n, C) && 0 <= p < C
    ensures g.bucket[p] == p - p % K && 0 <= p - p % K <= p < p - p % K + K <= C && g.bucket[p - p % K] == p - p % K
  {
    BucketBounds(K, n, p);
    SameBucket(K, p, BucketOf(K, p));
  }
}
