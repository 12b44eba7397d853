/** The contents of the set-associative cache: a table in which every entry lies in the
    bucket its hash names, with an LRU counter for each slot, and how both share one array. */
module CacheTable {
  import opened Slots
  import opened Probing
  import opened Scrubbing
  import opened Rebuild
  import opened Kernels

  const DEFAULT_LRU := 127

  // ---------------------------------------------------------------- one array for states and counters

  /** `pos_to_pos2`: each bucket takes twice its size, states first, counters behind them. */
  function StateIndex<Key>(g: Layout<Key>, p: int): int
    requires 0 <= p < |g.bucket|
  {
    p + g.bucket[p]
  }

  function LruIndex<Key>(g: Layout<Key>, p: int): int
    requires 0 <= p < |g.bucket|
  {
    p + g.bucket[p] + g.K
  }

  lemma BucketsApart<Key>(g: Layout<Key>, p: int, q: int)
    requires GoodBuckets(g) && 0 <= p < |g.bucket| && 0 <= q < |g.bucket| && g.bucket[p] < g.bucket[q]
    ensures g.bucket[p] + g.K <= g.bucket[q]
  {
    hide GoodBuckets;
    var b := g.bucket[q];
    SameBucketRange(g, q, q);
    SameBucketRange(g, q, b);
    SameBucketRange(g, p, b);
  }

  /** No two of these indices are the same, and all of them lie in the array. */
  lemma NoAliasing<Key>(g: Layout<Key>, p: int, q: int)
    requires GoodBuckets(g) && 0 <= p < |g.bucket| && 0 <= q < |g.bucket|
    ensures 0 <= StateIndex(g, p) < LruIndex(g, p) < 2 * |g.bucket|
    ensures StateIndex(g, p) != LruIndex(g, q)
    ensures StateIndex(g, p) == StateIndex(g, q) <==> p == q
    ensures LruIndex(g, p) == LruIndex(g, q) <==> p == q
  {
    if g.bucket[p] < g.bucket[q] { BucketsApart(g, p, q); }
    if g.bucket[q] < g.bucket[p] { BucketsApart(g, q, p); }
  }

  ghost predicate Interleaved<Key>(g: Layout<Key>, data: seq<int>, states: seq<int>, lrus: seq<int>) {
    && GoodBuckets(g) && |states| == |lrus| == |g.bucket| && |data| == 2 * |g.bucket|
    && (forall p :: 0 <= p < |states| ==> 0 <= StateIndex(g, p) < LruIndex(g, p) < |data|)
    && (forall p :: 0 <= p < |states| ==> data[StateIndex(g, p)] == states[p] && data[LruIndex(g, p)] == lrus[p])
  }

  lemma WriteStateKeeps<Key>(g: Layout<Key>, data: seq<int>, states: seq<int>, lrus: seq<int>, p: int, s: int)
    requires Interleaved(g, data, states, lrus) && 0 <= p < |states|
    ensures 0 <= StateIndex(g, p) < |data| && Interleaved(g, data[StateIndex(g, p) := s], states[p := s], lrus)
  {
    hide GoodBuckets, StateIndex, LruIndex;
    forall q | 0 <= q < |states| ensures data[StateIndex(g, p) := s][StateIndex(g, q)] == states[p := s][q]
                                         && data[StateIndex(g, p) := s][LruIndex(g, q)] == lrus[q] {
      NoAliasing(g, p, q);
    }
  }

  lemma WriteLruKeeps<Key>(g: Layout<Key>, data: seq<int>, states: seq<int>, lrus: seq<int>, p: int, x: int)
    requires Interleaved(g, data, states, lrus) && 0 <= p < |states|
    ensures 0 <= LruIndex(g, p) < |data| && Interleaved(g, data[LruIndex(g, p) := x], states, lrus[p := x])
  {
    hide GoodBuckets, StateIndex, LruIndex;
    forall q | 0 <= q < |states| ensures data[LruIndex(g, p) := x][StateIndex(g, q)] == states[q]
                                         && data[LruIndex(g, p) := x][LruIndex(g, q)] == lrus[p := x][q] {
      NoAliasing(g, p, q);
      NoAliasing(g, q, p);
    }
  }

  /** The states of a bucket lie side by side, and so do its counters. */
  lemma LoadBucket<Key>(g: Layout<Key>, data: seq<int>, states: seq<int>, lrus: seq<int>, b: int)
    requires Interleaved(g, data, states, lrus) && 0 <= b < |g.bucket| && g.bucket[b] == b
    ensures b + g.K <= |states| && 2 * b + 2 * g.K <= |data|
    ensures data[2 * b..2 * b + g.K] == Loaded(states, b, g.K)
    ensures data[2 * b + g.K..2 * b + 2 * g.K] == Loaded(lrus, b, g.K)
  {
    assert 0 <= g.bucket[b] <= b < g.bucket[b] + g.K <= |g.bucket|;
    var k, l := Loaded(states, b, g.K), Loaded(lrus, b, g.K);
    forall i | 0 <= i < g.K ensures data[2 * b + i] == k[i] && data[2 * b + g.K + i] == l[i] {
      assert g.bucket[b + i] == b;
      assert StateIndex(g, b + i) == 2 * b + i && LruIndex(g, b + i) == 2 * b + g.K + i;
      assert data[StateIndex(g, b + i)] == states[b + i];
    }
  }

  // ---------------------------------------------------------------- the invariant

  /** Every entry lies in its home bucket, the first one on its path. */
  ghost predicate AtHome<Key, Val>(g: Layout<Key>, t: Table<Key, Val>)
    requires Fits(g, t)
  {
    forall p :: Live(t, p) ==> g.rank(t.keys[p], p) == 0
  }

  ghost predicate NoTombstones<Key, Val>(t: Table<Key, Val>) { forall p :: !TombAt(t, p) }

  ghost predicate CacheInv<Key, Val>(g: Layout<Key>, t: Table<Key, Val>, lrus: seq<int>, dup: bool) {
    && Fits(g, t) && |lrus| == |t.states| && ValidLrus(lrus)
    && AtHome(g, t) && NoTombstones(t) && Fingerprinted(g, t)
    && (!dup ==> UniqueKeys(g, t))
  }

  /** A cache is a table whose keys need no probing. */
  lemma CacheIsTable<Key(!new), Val>(g: Layout<Key>, t: Table<Key, Val>, lrus: seq<int>, dup: bool)
    requires GoodLayout(g) && CacheInv(g, t, lrus, dup)
    ensures Inv(g, t, dup)
  {
    forall p, e | Live(t, p) && EmptyAt(t, e) ensures g.rank(t.keys[p], p) <= g.rank(t.keys[p], e) {
      RankBounds(g, t.keys[p], e);
    }
  }

  lemma TouchKeeps<Key, Val>(g: Layout<Key>, t: Table<Key, Val>, lrus: seq<int>, dup: bool, lrus': seq<int>)
    requires CacheInv(g, t, lrus, dup) && |lrus'| == |lrus| && ValidLrus(lrus')
    ensures CacheInv(g, t, lrus', dup)
  {
  }

  lemma AssignCache<Key, Val>(g: Layout<Key>, t: Table<Key, Val>, lrus: seq<int>, dup: bool, p: int, val: Val)
    requires CacheInv(g, t, lrus, dup) && 0 <= p < |t.vals|
    ensures CacheInv(g, t.(vals := t.vals[p := val]), lrus, dup)
  {
    var u := t.(vals := t.vals[p := val]);
    forall q | Live(u, q) ensures Live(t, q) {}
    forall q ensures !TombAt(u, q) { assert !TombAt(t, q); }
  }

  /** Erasing leaves an empty slot, whatever else the bucket holds. */
  lemma ErasedKeeps<Key(!new), Val>(g: Layout<Key>, t: Table<Key, Val>, lrus: seq<int>, dup: bool, p: int)
    requires GoodLayout(g) && CacheInv(g, t, lrus, dup) && Live(t, p)
    ensures var u := SetState(t, p, EMPTY);
      && CacheInv(g, u, lrus, dup)
      && Bag(u) == Bag(t) - multiset{Some((t.keys[p], t.vals[p]))} && Some((t.keys[p], t.vals[p])) in Bag(t)
      && Count(u.states, EMPTY) == Count(t.states, EMPTY) + 1
  {
    hide GoodLayout, Bag, Count;
    var u := SetState(t, p, EMPTY);
    BagUpdate(t, u, p);
    CountUpdate(t.states, p, EMPTY);
    forall q | Live(u, q) ensures Live(t, q) && q != p {}
    forall q ensures !TombAt(u, q) { assert !TombAt(t, q); }
    forall q | 0 <= q < |u.states| ensures ValidState(u.states[q]) { assert ValidState(t.states[q]); }
  }

  /** Filling an empty slot of the home bucket. */
  lemma FilledKeeps<Key(!new), Val>(g: Layout<Key>, t: Table<Key, Val>, lrus: seq<int>, dup: bool, q: int, key: Key,
                                    val: Val, lru: int)
    requires GoodLayout(g) && CacheInv(g, t, lrus, dup) && EmptyAt(t, q) && g.rank(key, q) == 0 && 0 <= lru <= MAX_LRU
    requires !dup ==> !Holds(t, key)
    ensures var u := Store(g, t, q, key, val);
      && CacheInv(g, u, lrus[q := lru], dup)
      && Bag(u) == Bag(t) + multiset{Some((key, val))}
      && Count(u.states, EMPTY) == Count(t.states, EMPTY) - 1
  {
    hide Bag, Count;
    var u := Store(g, t, q, key, val);
    assert 0 <= g.finger(key) < 128;
    BagUpdate(t, u, q);
    CountUpdate(t.states, q, g.finger(key));
    forall p | Live(u, p) && p != q ensures Live(t, p) && u.states[p] == t.states[p] && u.keys[p] == t.keys[p] {}
    forall p ensures !TombAt(u, p) { assert !TombAt(t, p); }
    forall p | 0 <= p < |u.states| ensures ValidState(u.states[p]) { assert p != q ==> ValidState(t.states[p]); }
    if !dup {
      forall p | Live(t, p) ensures t.keys[p] != key { assert !Holds(t, key); }
    }
  }

  /** Evicting one entry for another. */
  lemma ReplacedKeeps<Key(!new), Val>(g: Layout<Key>, t: Table<Key, Val>, lrus: seq<int>, dup: bool, q: int, key: Key,
                                      val: Val, lru: int)
    requires GoodLayout(g) && CacheInv(g, t, lrus, dup) && Live(t, q) && g.rank(key, q) == 0 && 0 <= lru <= MAX_LRU
    requires !dup ==> !Holds(t, key)
    ensures var u := Store(g, t, q, key, val);
      && CacheInv(g, u, lrus[q := lru], dup)
      && Some((t.keys[q], t.vals[q])) in Bag(t)
      && Bag(u) == Bag(t) - multiset{Some((t.keys[q], t.vals[q]))} + multiset{Some((key, val))}
      && Count(u.states, EMPTY) == Count(t.states, EMPTY)
  {
    hide GoodLayout, CacheInv, Bag, Count;
    InvSizes(g, t, lrus, dup);
    var v := SetState(t, q, EMPTY);
    ErasedKeeps(g, t, lrus, dup, q);
    if !dup {
      forall p | Live(v, p) ensures v.keys[p] != key {
        assert Live(t, p);
        assert !Holds(t, key);
      }
    }
    FilledKeeps(g, v, lrus, dup, q, key, val, lru);
    assert Store(g, v, q, key, val) == Store(g, t, q, key, val);
  }

  lemma InvSizes<Key, Val>(g: Layout<Key>, t: Table<Key, Val>, lrus: seq<int>, dup: bool)
    requires CacheInv(g, t, lrus, dup)
    ensures Fits(g, t) && |lrus| == |t.states|
  {
  }

  // ---------------------------------------------------------------- one bucket

  /** The counters after slot `p` has been touched: those of its bucket are updated. */
  function Touched<Key>(g: Layout<Key>, lrus: seq<int>, p: int): (r: seq<int>)
    requires |lrus| == |g.bucket| && 0 <= p < |lrus|
    ensures |r| == |lrus|
  {
    var b := g.bucket[p];
    if 0 <= b <= p < b + g.K <= |lrus| then
      lrus[..b] + UpdateLru(Loaded(lrus, b, g.K), p - b) + lrus[b + g.K..]
    else lrus
  }

  lemma SameBucketRange<Key>(g: Layout<Key>, p: int, q: int)
    requires GoodBuckets(g) && 0 <= p < |g.bucket| && 0 <= q < |g.bucket|
    ensures 0 <= g.bucket[p] <= p < g.bucket[p] + g.K <= |g.bucket|
    ensures g.bucket[q] == g.bucket[p] <==> g.bucket[p] <= q < g.bucket[p] + g.K
  {
  }

  lemma TouchedAt<Key>(g: Layout<Key>, lrus: seq<int>, p: int, q: int)
    requires GoodBuckets(g) && |lrus| == |g.bucket| && 0 <= p < |lrus| && 0 <= q < |lrus|
    ensures 0 <= g.bucket[p] <= p < g.bucket[p] + g.K <= |lrus|
    ensures g.bucket[q] != g.bucket[p] ==> Touched(g, lrus, p)[q] == lrus[q]
    ensures g.bucket[q] == g.bucket[p] ==>
              g.bucket[p] <= q < g.bucket[p] + g.K && Loaded(lrus, g.bucket[p], g.K)[q - g.bucket[p]] == lrus[q]
              && Touched(g, lrus, p)[q] == UpdateLru(Loaded(lrus, g.bucket[p], g.K), p - g.bucket[p])[q - g.bucket[p]]
  {
    SameBucketRange(g, p, q);
  }

  /** Touching a slot stays within its bucket, puts it above every slot there that was not
      above it, and keeps the order of the others. */
  lemma TouchedIs<Key>(g: Layout<Key>, lrus: seq<int>, p: int)
    requires GoodBuckets(g) && |lrus| == |g.bucket| && ValidLrus(lrus) && 0 <= p < |lrus|
    ensures ValidLrus(Touched(g, lrus, p))
    ensures forall q :: 0 <= q < |lrus| && g.bucket[q] != g.bucket[p] ==> Touched(g, lrus, p)[q] == lrus[q]
    ensures forall q :: 0 <= q < |lrus| && g.bucket[q] == g.bucket[p] && q != p && lrus[q] <= lrus[p] ==>
                          Touched(g, lrus, p)[q] < Touched(g, lrus, p)[p]
    ensures forall q, r ::
              0 <= q < |lrus| && 0 <= r < |lrus| && g.bucket[q] == g.bucket[r] == g.bucket[p]
              && q != p && r != p && lrus[q] <= lrus[r] ==>
                Touched(g, lrus, p)[q] <= Touched(g, lrus, p)[r]
  {
    hide GoodBuckets, Touched, UpdateLru, Loaded;
    var b := g.bucket[p];
    TouchedAt(g, lrus, p, p);
    var l := Loaded(lrus, b, g.K);
    SliceLrus(lrus, b, g.K);
    TouchOrders(l, p - b);
    forall q | 0 <= q < |lrus|
      ensures 0 <= Touched(g, lrus, p)[q] <= MAX_LRU && (g.bucket[q] != b ==> Touched(g, lrus, p)[q] == lrus[q]) {
      TouchedAt(g, lrus, p, q);
    }
    forall q | 0 <= q < |lrus| && g.bucket[q] == b && q != p && lrus[q] <= lrus[p]
      ensures Touched(g, lrus, p)[q] < Touched(g, lrus, p)[p] {
      TouchedAt(g, lrus, p, q);
    }
    forall q, r | 0 <= q < |lrus| && 0 <= r < |lrus| && g.bucket[q] == g.bucket[r] == b && q != p && r != p
      && lrus[q] <= lrus[r]
      ensures Touched(g, lrus, p)[q] <= Touched(g, lrus, p)[r]
    {
      TouchedAt(g, lrus, p, q);
      TouchedAt(g, lrus, p, r);
    }
  }

  lemma SliceLrus(lrus: seq<int>, b: int, K: nat)
    requires ValidLrus(lrus) && 0 <= b && b + K <= |lrus|
    ensures |Loaded(lrus, b, K)| == K && ValidLrus(Loaded(lrus, b, K))
  {
  }

  // ---------------------------------------------------------------- searching the home bucket

  lemma PathIsBucket<Key(!new), Val>(g: Layout<Key>, t: Table<Key, Val>, key: Key)
    requires GoodLayout(g) && Fits(g, t) && g.n > 0
    ensures 0 <= g.path(key, 0) < |g.bucket| && g.bucket[g.path(key, 0)] == g.path(key, 0)
    ensures Rejected(t.keys, g.path(key, 0), [], 0, key)
  {
  }

  /** A key that is not in its home bucket is nowhere. */
  lemma HomeSearched<Key(!new), Val>(g: Layout<Key>, t: Table<Key, Val>, lrus: seq<int>, dup: bool, key: Key)
    requires CacheInv(g, t, lrus, dup) && NotBefore(g, t, key, 1)
    ensures !Holds(t, key)
  {
  }

  lemma NotTombstone<Key, Val>(g: Layout<Key>, t: Table<Key, Val>, lrus: seq<int>, dup: bool, p: int)
    requires CacheInv(g, t, lrus, dup) && 0 <= p < |t.states| && !IsHash(t.states[p])
    ensures EmptyAt(t, p)
  {
    assert ValidState(t.states[p]) && !TombAt(t, p);
  }

  lemma StateAt<Key>(g: Layout<Key>, data: seq<int>, states: seq<int>, lrus: seq<int>, p: int)
    requires Interleaved(g, data, states, lrus) && 0 <= p < |states|
    ensures 0 <= p + g.bucket[p] < |data| && data[p + g.bucket[p]] == states[p]
    ensures 0 <= p + g.bucket[p] + g.K < |data| && data[p + g.bucket[p] + g.K] == lrus[p]
  {
    assert data[StateIndex(g, p)] == states[p];
  }

  /** Every slot of the home bucket of `key` is in use. */
  ghost predicate HomeFull<Key, Val>(g: Layout<Key>, t: Table<Key, Val>, key: Key) {
    forall p :: 0 <= p < |t.states| && g.rank(key, p) == 0 ==> Live(t, p)
  }

  /** `pos` is the first slot with the least counter in the home bucket of `key`. */
  ghost predicate LeastUsed<Key>(g: Layout<Key>, lrus: seq<int>, key: Key, pos: int) {
    && 0 <= pos < |lrus| && g.rank(key, pos) == 0
    && (forall p :: 0 <= p < |lrus| && g.rank(key, p) == 0 ==>
      lrus[pos] <= lrus[p] && (p < pos ==> lrus[pos] < lrus[p]))
  }

  lemma HomeHasRoom<Key(!new), Val>(g: Layout<Key>, t: Table<Key, Val>, lrus: seq<int>, dup: bool, key: Key, x: int)
    requires GoodLayout(g) && CacheInv(g, t, lrus, dup) && g.n > 0
    requires 0 <= g.path(key, 0) && g.path(key, 0) + g.K <= |t.states|
    requires x == FreeFrom(Loaded(t.states, g.path(key, 0), g.K), 0, g.K) < g.K
    ensures var pos := g.path(key, 0) + x;
      0 <= pos < |t.states| && EmptyAt(t, pos) && g.rank(key, pos) == 0 && FirstFreeSlot(g, t, key, pos)
        && !HomeFull(g, t, key)
  {
    hide GoodLayout, CacheInv, FirstFreeSlot, FullBefore;
    InvSizes(g, t, lrus, dup);
    LoadedSize(t.states, g.path(key, 0), g.K);
    NothingFull(g, t, key);
    FreeFound(g, t, key, 0, x);
    NotTombstone(g, t, lrus, dup, g.path(key, 0) + x);
  }

  lemma HomeIsFull<Key(!new), Val>(g: Layout<Key>, t: Table<Key, Val>, key: Key)
    requires GoodLayout(g) && Fits(g, t) && g.n > 0
    requires 0 <= g.path(key, 0) && g.path(key, 0) + g.K <= |t.states|
    requires FreeFrom(Loaded(t.states, g.path(key, 0), g.K), 0, g.K) == g.K
    ensures HomeFull(g, t, key)
  {
    hide GoodLayout;
    var b := g.path(key, 0);
    LoadedSize(t.states, b, g.K);
    BucketRange(g, key, 0);
    forall p | b <= p < b + g.K ensures Live(t, p) { assert IsHash(Loaded(t.states, b, g.K)[p - b]); }
  }

  /** `min_lru` of a full bucket. */
  lemma MinOfBucket<Key(!new), Val>(g: Layout<Key>, t: Table<Key, Val>, lrus: seq<int>, key: Key, idx: nat)
    requires GoodLayout(g) && Fits(g, t) && |lrus| == |t.states| && g.n > 0
    requires 0 <= g.path(key, 0) && g.path(key, 0) + g.K <= |t.states| && idx < g.K
    requires var l := Loaded(lrus, g.path(key, 0), g.K);
      (forall j :: 0 <= j < g.K ==> l[idx] <= l[j]) && (forall j :: 0 <= j < idx ==> l[idx] < l[j])
    ensures LeastUsed(g, lrus, key, g.path(key, 0) + idx)
  {
    hide GoodLayout;
    BucketRange(g, key, 0);
    var b, l := g.path(key, 0), Loaded(lrus, g.path(key, 0), g.K);
    assert forall j :: 0 <= j < g.K ==> l[j] == lrus[b + j];
    forall p | b <= p < b + g.K ensures lrus[b + idx] <= lrus[p] && (p < b + idx ==> lrus[b + idx] < lrus[p]) {
      assert l[p - b] == lrus[p];
    }
  }

  // ---------------------------------------------------------------- storing counters back

  /** The first `n` of the new counters `l` have replaced those of the bucket at `b`. */
  function Spliced(lrus: seq<int>, b: nat, l: seq<int>, n: nat): (r: seq<int>)
    requires n <= |l| && b + |l| <= |lrus|
    ensures |r| == |lrus|
  {
    lrus[..b] + l[..n] + lrus[b + n..]
  }

  lemma SplicedNone(lrus: seq<int>, b: nat, l: seq<int>)
    requires b + |l| <= |lrus|
    ensures Spliced(lrus, b, l, 0) == lrus
  {
  }

  lemma SplicedOne(lrus: seq<int>, b: nat, l: seq<int>, n: nat)
    requires n < |l| && b + |l| <= |lrus|
    ensures Spliced(lrus, b, l, n + 1) == Spliced(lrus, b, l, n)[b + n := l[n]]
  {
  }

  lemma SplicedAll<Key>(g: Layout<Key>, lrus: seq<int>, p: int, l: seq<int>)
    requires GoodBuckets(g) && |lrus| == |g.bucket| && 0 <= p < |lrus|
    requires 0 <= g.bucket[p] <= p < g.bucket[p] + g.K <= |lrus|
    requires l == UpdateLru(Loaded(lrus, g.bucket[p], g.K), p - g.bucket[p]) && |l| == g.K
    ensures Spliced(lrus, g.bucket[p], l, g.K) == Touched(g, lrus, p)
  {
    assert l[..g.K] == l;
  }

  lemma UpdateSize(l: seq<int>, i: int)
    requires 0 <= i < |l|
    ensures |UpdateLru(l, i)| == |l|
  {
  }

  lemma VictimIsLive<Key(!new), Val>(g: Layout<Key>, t: Table<Key, Val>, lrus: seq<int>, key: Key, pos: int)
    requires |lrus| == |t.states| && HomeFull(g, t, key) && LeastUsed(g, lrus, key, pos)
    ensures Live(t, pos) && g.rank(key, pos) == 0
  {
  }

  /** In the first `n` slots the selected entries are gone, and nothing else has changed. */
  ghost predicate DroppedBelow<Key, Val>(t: Table<Key, Val>, u: Table<Key, Val>, drop: (Key, Val) -> bool, n: int) {
    && |t.states| == |t.keys| == |t.vals| == |u.states| && u.keys == t.keys && u.vals == t.vals
    && (forall q :: Live(u, q) <==> Live(t, q) && !(q < n && drop(t.keys[q], t.vals[q])))
  }

  lemma DropStart<Key, Val>(t: Table<Key, Val>, drop: (Key, Val) -> bool)
    requires |t.states| == |t.keys| == |t.vals|
    ensures DroppedBelow(t, t, drop, 0)
  {
  }

  lemma DropOne<Key, Val>(t: Table<Key, Val>, u: Table<Key, Val>, drop: (Key, Val) -> bool, p: int)
    requires DroppedBelow(t, u, drop, p) && Live(u, p) && drop(u.keys[p], u.vals[p])
    ensures DroppedBelow(t, SetState(u, p, EMPTY), drop, p + 1)
  {
    var v := SetState(u, p, EMPTY);
    forall q ensures Live(v, q) <==> Live(t, q) && !(q < p + 1 && drop(t.keys[q], t.vals[q])) {
      assert Live(v, q) <==> Live(u, q) && q != p;
    }
  }

  lemma DropSkip<Key, Val>(t: Table<Key, Val>, u: Table<Key, Val>, drop: (Key, Val) -> bool, p: int)
    requires DroppedBelow(t, u, drop, p) && (Live(u, p) ==> !drop(u.keys[p], u.vals[p]))
    ensures DroppedBelow(t, u, drop, p + 1)
  {
    forall q ensures Live(u, q) <==> Live(t, q) && !(q < p + 1 && drop(t.keys[q], t.vals[q])) {
      assert q == p ==> (Live(u, p) <==> Live(t, p));
    }
  }

  /** The two tables hold the same entries in all slots but `pos`. */
  ghost predicate AgreeElsewhere<Key, Val>(t: Table<Key, Val>, u: Table<Key, Val>, pos: int) {
    && |u.states| == |u.keys| == |u.vals| == |t.states| == |t.keys| == |t.vals|
    && (forall p :: p != pos ==> (Live(u, p) <==> Live(t, p)))
    && (forall p :: Live(u, p) && p != pos ==> u.keys[p] == t.keys[p] && u.vals[p] == t.vals[p])
  }

  // ---------------------------------------------------------------- scrubbing

  /** In the first `n` slots, states whose counter is below the threshold have become empty. */
  ghost function ScrubbedBelow<Key, Val>(t: Table<Key, Val>, lrus: seq<int>, threshold: int,
                                         n: nat): (u: Table<Key, Val>)
    requires |lrus| == |t.states|
    ensures |u.states| == |t.states| && u.keys == t.keys && u.vals == t.vals
  {
    t.(states := seq(|t.states|, p requires 0 <= p < |t.states| => if p < n && lrus[p] < threshold then EMPTY
      else t.states[p]))
  }

  lemma ScrubNone<Key, Val>(t: Table<Key, Val>, lrus: seq<int>, threshold: int)
    requires |lrus| == |t.states|
    ensures ScrubbedBelow(t, lrus, threshold, 0) == t
  {
    assert ScrubbedBelow(t, lrus, threshold, 0).states == t.states;
  }

  lemma ScrubOne<Key, Val>(t: Table<Key, Val>, lrus: seq<int>, threshold: int, n: nat)
    requires |lrus| == |t.states| && n < |t.states|
    ensures var u, v := ScrubbedBelow(t, lrus, threshold, n), ScrubbedBelow(t, lrus, threshold, n + 1);
      && u.states[n] == t.states[n]
      && v == SetState(u, n, if lrus[n] < threshold then EMPTY else t.states[n])
      && Count(v.states, EMPTY) == Count(u.states, EMPTY)
      + (if lrus[n] < threshold && t.states[n] != EMPTY then 1 else 0)
  {
    var u, v := ScrubbedBelow(t, lrus, threshold, n), ScrubbedBelow(t, lrus, threshold, n + 1);
    assert v.states == u.states[n := if lrus[n] < threshold then EMPTY else t.states[n]];
    CountUpdate(u.states, n, if lrus[n] < threshold then EMPTY else t.states[n]);
  }

  /** `k1` is the bucket `k0` after scrubbing. */
  ghost predicate BucketScrubbed<Key, Val>(t: Table<Key, Val>, lrus: seq<int>, threshold: int, b: nat, K: nat,
                                           k0: seq<int>, k1: seq<int>) {
    && |k0| == |k1| == K && b + K <= |t.states| == |lrus|
    && (forall i :: 0 <= i < K ==> k0[i] == t.states[b + i])
    && (forall i :: 0 <= i < K ==> k1[i] == if lrus[b + i] < threshold then EMPTY else t.states[b + i])
  }

  lemma ScrubOneBucket<Key, Val>(t: Table<Key, Val>, lrus: seq<int>, threshold: int, b: nat, K: nat)
    requires |lrus| == |t.states| && b + K <= |t.states|
    ensures var k0, l := Loaded(ScrubbedBelow(t, lrus, threshold, b).states, b, K), Loaded(lrus, b, K);
      |k0| == |l| == K && BucketScrubbed(t, lrus, threshold, b, K, k0, ToEmptyIfLruBelow(k0, l, threshold))
  {
  }

  lemma ScrubStep<Key, Val>(t: Table<Key, Val>, lrus: seq<int>, threshold: int, b: nat, K: nat, k0: seq<int>,
                            k1: seq<int>, i: nat)
    requires BucketScrubbed(t, lrus, threshold, b, K, k0, k1) && i < K
    ensures |k0| == |k1| == K && b + i < |t.states| == |lrus|
    ensures k0[i] == t.states[b + i] && k1[i] == if lrus[b + i] < threshold then EMPTY else t.states[b + i]
  {
  }

  /** What is left of `t` is what has a counter of at least the threshold. */
  ghost predicate Purged<Key, Val>(t: Table<Key, Val>, u: Table<Key, Val>, lrus: seq<int>, threshold: int) {
    && |u.states| == |t.states| == |lrus| && u.keys == t.keys && u.vals == t.vals
    && (forall p :: Live(u, p) <==> Live(t, p) && lrus[p] >= threshold)
  }

  ghost predicate AllReset(states: seq<int>, lrus: seq<int>, n: nat) {
    n <= |states| == |lrus| && forall q :: 0 <= q < n ==> states[q] == EMPTY && lrus[q] == MAX_LRU
  }

  lemma ResetOne(states: seq<int>, lrus: seq<int>, n: nat)
    requires AllReset(states, lrus, n) && n < |states|
    ensures AllReset(states[n := EMPTY], lrus[n := MAX_LRU], n + 1)
  {
  }

  lemma ResetNone(states: seq<int>, lrus: seq<int>)
    requires |states| == |lrus|
    ensures AllReset(states, lrus, 0)
  {
  }

  /** Scrubbing removes exactly the entries below the threshold. */
  lemma ScrubKeepsCache<Key(!new), Val>(g: Layout<Key>, t: Table<Key, Val>, lrus: seq<int>, dup: bool, threshold: int)
    requires GoodLayout(g) && CacheInv(g, t, lrus, dup)
    ensures var u := ScrubbedBelow(t, lrus, threshold, |t.states|);
      && CacheInv(g, u, lrus, dup)
      && Purged(t, u, lrus, threshold)
      && |Bag(t)| - |Bag(u)| == Count(u.states, EMPTY) - Count(t.states, EMPTY)
  {
    hide GoodLayout, Bag, Count;
    var u := ScrubbedBelow(t, lrus, threshold, |t.states|);
    forall p | 0 <= p < |u.states|
      ensures ValidState(u.states[p]) && !TombAt(u, p) { assert ValidState(t.states[p]) && !TombAt(t, p); }
    forall p ensures Live(u, p) <==> Live(t, p) && lrus[p] >= threshold {}
    forall p ensures !TombAt(u, p) { assert !TombAt(t, p); }
    Size(t);
    Size(u);
    CountNone(t);
    CountNone(u);
  }

  lemma CountNone<Key, Val>(t: Table<Key, Val>)
    requires NoTombstones(t)
    ensures Count(t.states, TOMBSTONE) == 0
  {
    CountTombstones(t);
  }

  // ---------------------------------------------------------------- a new array

  function StatesOf<Key>(g: Layout<Key>, data: seq<int>): seq<int> {
    seq(|g.bucket|, p requires 0 <= p < |g.bucket| => if 0 <= StateIndex(g, p) < |data| then data[StateIndex(g, p)]
      else 0)
  }

  function LrusOf<Key>(g: Layout<Key>, data: seq<int>): seq<int> {
    seq(|g.bucket|, p requires 0 <= p < |g.bucket| => if 0 <= LruIndex(g, p) < |data| then data[LruIndex(g, p)] else 0)
  }

  /** Whatever the array holds, it is the interleaving of something. */
  lemma AnyArrayWillDo<Key>(g: Layout<Key>, data: seq<int>)
    requires GoodBuckets(g) && |data| == 2 * |g.bucket|
    ensures Interleaved(g, data, StatesOf(g, data), LrusOf(g, data)) && |StatesOf(g, data)| == |g.bucket|
  {
    forall p | 0 <= p < |g.bucket| ensures 0 <= StateIndex(g, p) < LruIndex(g, p) < |data| { NoAliasing(g, p, p); }
  }

  lemma EmptyCache<Key(!new), Val>(g: Layout<Key>, u: Table<Key, Val>, lrus: seq<int>, dup: bool)
    requires Fits(g, u) && AllReset(u.states, lrus, |u.states|)
    ensures forall p :: 0 <= p < |u.states| ==> u.states[p] == EMPTY
    ensures CacheInv(g, u, lrus, dup) && Bag(u) == multiset{} && Count(u.states, EMPTY) == |u.states|
  {
    AllEmpty(g, u, dup);
  }
}
