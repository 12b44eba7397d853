/** Resizing the cache: what is kept and what is dropped when entries are copied, bucket by
    bucket, into another number of buckets. */
module CacheResize {
  import opened Pow2
  import opened ProbeSeq
  import opened Slots
  import opened Probing
  import opened Kernels
  import opened CacheTable
  import L = Listing
  import ML = MapLayout

  /** Each entry of `u` comes from the slot `src[q] < n` of `t`, and no two from the same one. */
  ghost predicate Moved<Key(!new), Val>(u: Table<Key, Val>, ulrus: seq<int>, t: Table<Key, Val>, lrus: seq<int>,
                                        src: seq<int>, n: nat) {
    && |u.states| == |u.keys| == |u.vals| == |ulrus| == |src| && |t.states| == |t.keys| == |t.vals| == |lrus|
    && n <= |t.states|
    && (forall q :: 0 <= q < |src| ==> (Live(u, q) <==> src[q] >= 0))
    && (forall q :: 0 <= q < |src| && src[q] >= 0 ==>
          src[q] < n && Live(t, src[q]) && u.keys[q] == t.keys[src[q]] && u.vals[q] == t.vals[src[q]]
            && ulrus[q] == lrus[src[q]])
    && (forall q, r :: 0 <= q < r < |src| && src[q] >= 0 ==> src[q] != src[r])
  }

  ghost predicate Kept(src: seq<int>, p: int) { exists q :: 0 <= q < |src| && src[q] == p }

  /** No slot of the home bucket of `key` is empty or has a counter below `lru`. */
  ghost predicate Outranked<Key(!new), Val>(g: Layout<Key>, u: Table<Key, Val>, ulrus: seq<int>, key: Key, lru: int) {
    |ulrus| == |u.states| && forall q :: 0 <= q < |u.states| && g.rank(key, q) == 0 ==> Live(u, q) && lru <= ulrus[q]
  }

  /** An entry of the first `n` slots that was not kept gave way to entries used no less. */
  ghost predicate Fair<Key(!new), Val>(g: Layout<Key>, u: Table<Key, Val>, ulrus: seq<int>, t: Table<Key, Val>,
                                       lrus: seq<int>, src: seq<int>, n: nat)
    requires |t.states| == |t.keys| == |lrus| && n <= |t.states|
  {
    forall p :: 0 <= p < n && Live(t, p) && !Kept(src, p) ==> Outranked(g, u, ulrus, t.keys[p], lrus[p])
  }

  /** Slots of one bucket are home to the same keys. */
  lemma SameHome<Key(!new)>(g: Layout<Key>, k: Key, l: Key, q: int, r: int)
    requires GoodLayout(g) && 0 <= q < |g.bucket| && 0 <= r < |g.bucket| && g.rank(k, q) == 0 && g.rank(l, q) == 0
    ensures g.rank(k, r) == 0 <==> g.rank(l, r) == 0
    ensures g.path(k, 0) == g.path(l, 0) == g.bucket[q]
  {
    RankBounds(g, k, q);
    BucketRange(g, k, 0);
    BucketRange(g, l, 0);
  }

  lemma StartMoved<Key(!new), Val>(g: Layout<Key>, u: Table<Key, Val>, ulrus: seq<int>, t: Table<Key, Val>,
                                   lrus: seq<int>) returns (src: seq<int>)
    requires |u.states| == |u.keys| == |u.vals| == |ulrus| && |t.states| == |t.keys| == |t.vals| == |lrus|
    requires forall p :: 0 <= p < |u.states| ==> u.states[p] == EMPTY
    ensures Moved(u, ulrus, t, lrus, src, 0) && Fair(g, u, ulrus, t, lrus, src, 0)
  {
    src := seq(|u.states|, _ => -1);
  }

  lemma NotYetMoved<Key(!new), Val>(h: Layout<Key>, u: Table<Key, Val>, ulrus: seq<int>, t: Table<Key, Val>,
                                    lrus: seq<int>, src: seq<int>, n: nat)
    requires Moved(u, ulrus, t, lrus, src, n) && n < |t.states| && Live(t, n) && Fits(h, t) && UniqueKeys(h, t)
    ensures !Holds(u, t.keys[n])
  {
    forall q | Live(u, q) ensures u.keys[q] != t.keys[n] {
      assert src[q] < n && Live(t, src[q]) && u.keys[q] == t.keys[src[q]];
    }
  }

  lemma SkipSlot<Key(!new), Val>(g: Layout<Key>, u: Table<Key, Val>, ulrus: seq<int>, t: Table<Key, Val>,
                                 lrus: seq<int>, src: seq<int>, n: nat)
    requires Moved(u, ulrus, t, lrus, src, n) && Fair(g, u, ulrus, t, lrus, src, n) && n < |t.states| && !Live(t, n)
    ensures Moved(u, ulrus, t, lrus, src, n + 1) && Fair(g, u, ulrus, t, lrus, src, n + 1)
  {
  }

  /** What writing the entry of slot `n` into slot `q` does to the provenance. */
  lemma PlaceMoved<Key(!new), Val>(g: Layout<Key>, u: Table<Key, Val>, ulrus: seq<int>, t: Table<Key, Val>,
                                   lrus: seq<int>, src: seq<int>, n: nat, q: int)
    requires GoodLayout(g) && Fits(g, u) && Moved(u, ulrus, t, lrus, src, n) && n < |t.states| && Live(t, n)
             && 0 <= q < |src|
    ensures Moved(Store(g, u, q, t.keys[n], t.vals[n]), ulrus[q := lrus[n]], t, lrus, src[q := n], n + 1)
  {
    assert 0 <= g.finger(t.keys[n]);
    var v, s := Store(g, u, q, t.keys[n], t.vals[n]), src[q := n];
    forall r | 0 <= r < |s| ensures Live(v, r) <==> s[r] >= 0 { assert r != q ==> (Live(u, r) <==> src[r] >= 0); }
    forall r | 0 <= r < |s| && s[r] >= 0
      ensures s[r] < n + 1 && Live(t, s[r]) && v.keys[r] == t.keys[s[r]] && v.vals[r] == t.vals[s[r]]
              && ulrus[q := lrus[n]][r] == lrus[s[r]]
    {
      assert r != q ==> s[r] == src[r];
    }
    forall x, y | 0 <= x < y < |s| && s[x] >= 0 ensures s[x] != s[y] {
      if x != q && y != q { assert src[x] == s[x] && src[y] == s[y]; }
    }
  }

  lemma NotKept(src: seq<int>, q: int, n: int, p: int)
    requires 0 <= q < |src| && src[q] != p && !Kept(src[q := n], p)
    ensures !Kept(src, p)
  {
    forall x | 0 <= x < |src| ensures src[x] != p { assert src[q := n][x] != p; }
  }

  lemma FillFair<Key(!new), Val>(g: Layout<Key>, u: Table<Key, Val>, ulrus: seq<int>, t: Table<Key, Val>,
                                 lrus: seq<int>, src: seq<int>, n: nat, q: int)
    requires GoodLayout(g) && Fits(g, u) && Moved(u, ulrus, t, lrus, src, n) && Fair(g, u, ulrus, t, lrus, src, n)
    requires n < |t.states| && Live(t, n) && EmptyAt(u, q)
    ensures Fair(g, Store(g, u, q, t.keys[n], t.vals[n]), ulrus[q := lrus[n]], t, lrus, src[q := n], n + 1)
  {
    var v, vl, s := Store(g, u, q, t.keys[n], t.vals[n]), ulrus[q := lrus[n]], src[q := n];
    forall p | 0 <= p < n + 1 && Live(t, p) && !Kept(s, p) ensures Outranked(g, v, vl, t.keys[p], lrus[p]) {
      assert s[q] == n;
      NotKept(src, q, n, p);
      forall r | 0 <= r < |v.states| && g.rank(t.keys[p], r) == 0 ensures Live(v, r) && lrus[p] <= vl[r] {
        assert Live(u, r);
      }
    }
  }

  lemma ReplaceFair<Key(!new), Val>(g: Layout<Key>, u: Table<Key, Val>, ulrus: seq<int>, t: Table<Key, Val>,
                                    lrus: seq<int>, src: seq<int>, n: nat, q: int)
    requires GoodLayout(g) && Fits(g, u) && AtHome(g, u) && Moved(u, ulrus, t, lrus, src, n)
             && Fair(g, u, ulrus, t, lrus, src, n)
    requires n < |t.states| && Live(t, n) && HomeFull(g, u, t.keys[n]) && LeastUsed(g, ulrus, t.keys[n], q)
             && ulrus[q] <= lrus[n]
    ensures Fair(g, Store(g, u, q, t.keys[n], t.vals[n]), ulrus[q := lrus[n]], t, lrus, src[q := n], n + 1)
  {
    var v, vl, s := Store(g, u, q, t.keys[n], t.vals[n]), ulrus[q := lrus[n]], src[q := n];
    forall p | 0 <= p < n + 1 && Live(t, p) && !Kept(s, p) ensures Outranked(g, v, vl, t.keys[p], lrus[p]) {
      assert s[q] == n;
      StillOutranked(g, u, ulrus, t, lrus, src, n, q, p);
    }
  }

  lemma StillOutranked<Key(!new), Val>(g: Layout<Key>, u: Table<Key, Val>, ulrus: seq<int>, t: Table<Key, Val>,
                                       lrus: seq<int>, src: seq<int>, n: nat, q: int, p: int)
    requires GoodLayout(g) && Fits(g, u) && AtHome(g, u) && Moved(u, ulrus, t, lrus, src, n)
             && Fair(g, u, ulrus, t, lrus, src, n)
    requires n < |t.states| && Live(t, n) && HomeFull(g, u, t.keys[n]) && LeastUsed(g, ulrus, t.keys[n], q)
             && ulrus[q] <= lrus[n]
    requires 0 <= p < n && Live(t, p) && !Kept(src[q := n], p)
    ensures Outranked(g, Store(g, u, q, t.keys[n], t.vals[n]), ulrus[q := lrus[n]], t.keys[p], lrus[p])
  {
    hide GoodLayout;
    var v, vl := Store(g, u, q, t.keys[n], t.vals[n]), ulrus[q := lrus[n]];
    assert Live(u, q);
    forall r | 0 <= r < |v.states| && g.rank(t.keys[p], r) == 0 ensures Live(v, r) && lrus[p] <= vl[r] {
      StoreIsLive(g, u, q, t.keys[n], t.vals[n]);
      if src[q] == p {
        assert u.keys[q] == t.keys[p] && ulrus[q] == lrus[p];
        SameHome(g, t.keys[p], t.keys[n], q, r);
      } else {
        NotKept(src, q, n, p);
        assert Outranked(g, u, ulrus, t.keys[p], lrus[p]);
      }
    }
  }

  lemma DropFair<Key(!new), Val>(g: Layout<Key>, u: Table<Key, Val>, ulrus: seq<int>, t: Table<Key, Val>,
                                 lrus: seq<int>, src: seq<int>, n: nat, q: int)
    requires Moved(u, ulrus, t, lrus, src, n) && Fair(g, u, ulrus, t, lrus, src, n)
    requires n < |t.states| && Live(t, n) && HomeFull(g, u, t.keys[n]) && LeastUsed(g, ulrus, t.keys[n], q)
             && lrus[n] < ulrus[q]
    ensures Moved(u, ulrus, t, lrus, src, n + 1) && Fair(g, u, ulrus, t, lrus, src, n + 1)
  {
    assert Outranked(g, u, ulrus, t.keys[n], lrus[n]);
  }

  // ---------------------------------------------------------------- ties and places

  /** Every kept entry of the home of `key` has been used more than `lru` times. */
  ghost predicate Beaten<Key(!new), Val>(g: Layout<Key>, u: Table<Key, Val>, ulrus: seq<int>, key: Key, lru: int) {
    |ulrus| == |u.states| && forall q :: 0 <= q < |u.states| && g.rank(key, q) == 0 ==> Live(u, q) && lru < ulrus[q]
  }

  /** Some entry of the home of slot `p`'s key comes from a later slot and has been used no less. */
  ghost predicate Overtaken<Key(!new), Val>(g: Layout<Key>, u: Table<Key, Val>, ulrus: seq<int>, key: Key, lru: int,
                                            src: seq<int>, p: int) {
    |ulrus| == |u.states| == |src| && exists q :: 0 <= q < |src| && g.rank(key, q) == 0 && src[q] > p && lru <= ulrus[q]
  }

  /** Who was dropped was used less than all who are kept, or gave way to a later entry used no less: of two used
      equally it is the later one that stays. */
  ghost predicate LaterStays<Key(!new), Val>(g: Layout<Key>, u: Table<Key, Val>, ulrus: seq<int>, t: Table<Key, Val>,
                                             lrus: seq<int>, src: seq<int>, n: nat)
    requires |t.states| == |t.keys| == |lrus| && n <= |t.states|
  {
    forall p :: 0 <= p < n && Live(t, p) && !Kept(src, p) ==>
        Beaten(g, u, ulrus, t.keys[p], lrus[p]) || Overtaken(g, u, ulrus, t.keys[p], lrus[p], src, p)
  }

  /** A bucket is filled from its first slot on, and while it has room in the order of the old slots. */
  ghost predicate FilledInOrder<Key, Val>(g: Layout<Key>, u: Table<Key, Val>, src: seq<int>) {
    && Fits(g, u) && |src| == |u.states|
    && (forall q, r :: 0 <= q < r < |src| && g.bucket[q] == g.bucket[r] && Live(u, r) ==> Live(u, q))
    && (forall q, r :: 0 <= q < r < |src| && g.bucket[q] == g.bucket[r] && HasRoom(g, u, r) ==> src[q] < src[r])
  }

  /** Slot `r` is taken and a later one of its bucket is not. */
  ghost predicate HasRoom<Key, Val>(g: Layout<Key>, u: Table<Key, Val>, r: int)
    requires Fits(g, u)
  {
    Live(u, r) && exists e :: r < e < |u.states| && g.bucket[e] == g.bucket[r] && !Live(u, e)
  }

  /** Both of these, which a resize keeps up as it goes. */
  ghost predicate Orderly<Key(!new), Val>(g: Layout<Key>, u: Table<Key, Val>, ulrus: seq<int>, t: Table<Key, Val>,
                                          lrus: seq<int>, src: seq<int>, n: nat) {
    && |t.states| == |t.keys| == |lrus| && n <= |t.states|
    && LaterStays(g, u, ulrus, t, lrus, src, n) && FilledInOrder(g, u, src)
  }

  lemma StartOrderly<Key(!new), Val>(g: Layout<Key>, u: Table<Key, Val>, ulrus: seq<int>, t: Table<Key, Val>,
                                     lrus: seq<int>, src: seq<int>)
    requires Moved(u, ulrus, t, lrus, src, 0) && Fits(g, u) && forall p :: 0 <= p < |u.states| ==> u.states[p] == EMPTY
    ensures Orderly(g, u, ulrus, t, lrus, src, 0)
  {
  }

  lemma SkipOrderly<Key(!new), Val>(g: Layout<Key>, u: Table<Key, Val>, ulrus: seq<int>, t: Table<Key, Val>,
                                    lrus: seq<int>, src: seq<int>, n: nat)
    requires Orderly(g, u, ulrus, t, lrus, src, n) && n < |t.states| && !Live(t, n)
    ensures Orderly(g, u, ulrus, t, lrus, src, n + 1)
  {
  }

  lemma DropOrderly<Key(!new), Val>(g: Layout<Key>, u: Table<Key, Val>, ulrus: seq<int>, t: Table<Key, Val>,
                                    lrus: seq<int>, src: seq<int>, n: nat, q: int)
    requires Orderly(g, u, ulrus, t, lrus, src, n) && |ulrus| == |u.states| && n < |t.states| && Live(t, n)
    requires HomeFull(g, u, t.keys[n]) && LeastUsed(g, ulrus, t.keys[n], q) && lrus[n] < ulrus[q]
    ensures Orderly(g, u, ulrus, t, lrus, src, n + 1)
  {
    assert Beaten(g, u, ulrus, t.keys[n], lrus[n]);
  }

  lemma FillOrderly<Key(!new), Val>(g: Layout<Key>, u: Table<Key, Val>, ulrus: seq<int>, t: Table<Key, Val>,
                                    lrus: seq<int>, src: seq<int>, n: nat, q: int)
    requires GoodLayout(g) && Fits(g, u) && Moved(u, ulrus, t, lrus, src, n) && Orderly(g, u, ulrus, t, lrus, src, n)
    requires n < |t.states| && Live(t, n) && EmptyAt(u, q) && FirstFreeSlot(g, u, t.keys[n], q)
             && g.rank(t.keys[n], q) == 0
    ensures Orderly(g, Store(g, u, q, t.keys[n], t.vals[n]), ulrus[q := lrus[n]], t, lrus, src[q := n], n + 1)
  {
    FillLater(g, u, ulrus, t, lrus, src, n, q);
    FillInOrder(g, u, ulrus, t, lrus, src, n, q);
  }

  lemma FillLater<Key(!new), Val>(g: Layout<Key>, u: Table<Key, Val>, ulrus: seq<int>, t: Table<Key, Val>,
                                  lrus: seq<int>, src: seq<int>, n: nat, q: int)
    requires Fits(g, u) && Moved(u, ulrus, t, lrus, src, n) && LaterStays(g, u, ulrus, t, lrus, src, n)
    requires n < |t.states| && Live(t, n) && EmptyAt(u, q)
    ensures LaterStays(g, Store(g, u, q, t.keys[n], t.vals[n]), ulrus[q := lrus[n]], t, lrus, src[q := n], n + 1)
  {
    var v, vl, s := Store(g, u, q, t.keys[n], t.vals[n]), ulrus[q := lrus[n]], src[q := n];
    forall p | 0 <= p < n + 1 && Live(t, p) && !Kept(s, p)
      ensures Beaten(g, v, vl, t.keys[p], lrus[p]) || Overtaken(g, v, vl, t.keys[p], lrus[p], s, p)
    {
      assert s[q] == n;
      NotKept(src, q, n, p);
      if Overtaken(g, u, ulrus, t.keys[p], lrus[p], src, p) {
        var r :| 0 <= r < |src| && g.rank(t.keys[p], r) == 0 && src[r] > p && lrus[p] <= ulrus[r];
        assert r != q && s[r] > p;
      } else {
        assert !Live(u, q) && g.rank(t.keys[p], q) != 0;
        forall r | 0 <= r < |v.states| && g.rank(t.keys[p], r) == 0 ensures Live(v, r) && lrus[p] < vl[r] {
          assert r != q && Live(u, r);
        }
      }
    }
  }

  lemma FillInOrder<Key(!new), Val>(g: Layout<Key>, u: Table<Key, Val>, ulrus: seq<int>, t: Table<Key, Val>,
                                    lrus: seq<int>, src: seq<int>, n: nat, q: int)
    requires GoodLayout(g) && Fits(g, u) && Moved(u, ulrus, t, lrus, src, n) && FilledInOrder(g, u, src)
    requires n < |t.states| && Live(t, n) && EmptyAt(u, q) && FirstFreeSlot(g, u, t.keys[n], q)
    ensures FilledInOrder(g, Store(g, u, q, t.keys[n], t.vals[n]), src[q := n])
  {
    hide GoodLayout, FirstFreeSlot;
    var v, s := Store(g, u, q, t.keys[n], t.vals[n]), src[q := n];
    StoreIsLive(g, u, q, t.keys[n], t.vals[n]);
    forall x | 0 <= x < q && g.bucket[x] == g.bucket[q] ensures Live(u, x) { BelowIsTaken(g, u, t.keys[n], x, q); }
    forall x, y | 0 <= x < y < |src| && g.bucket[x] == g.bucket[y] && HasRoom(g, v, y) ensures s[x] < s[y] {
      assert Live(v, x);
      if y != q { assert HasRoom(g, u, y); }
    }
  }

  /** The first free slot of a bucket has only taken ones below it. */
  lemma BelowIsTaken<Key(!new), Val>(g: Layout<Key>, u: Table<Key, Val>, key: Key, x: int, q: int)
    requires GoodLayout(g) && Fits(g, u) && FirstFreeSlot(g, u, key, q)
    requires 0 <= x < q < |u.states| && g.bucket[x] == g.bucket[q]
    ensures Live(u, x)
  {
    hide GoodLayout;
    SameBucketSameRank(g, key, x, q);
  }

  lemma ReplaceOrderly<Key(!new), Val>(g: Layout<Key>, u: Table<Key, Val>, ulrus: seq<int>, t: Table<Key, Val>,
                                       lrus: seq<int>, src: seq<int>, n: nat, q: int)
    requires GoodLayout(g) && Fits(g, u) && AtHome(g, u) && Moved(u, ulrus, t, lrus, src, n)
             && Orderly(g, u, ulrus, t, lrus, src, n)
    requires n < |t.states| && Live(t, n) && HomeFull(g, u, t.keys[n]) && LeastUsed(g, ulrus, t.keys[n], q)
             && ulrus[q] <= lrus[n]
    ensures Orderly(g, Store(g, u, q, t.keys[n], t.vals[n]), ulrus[q := lrus[n]], t, lrus, src[q := n], n + 1)
  {
    var v, vl, s := Store(g, u, q, t.keys[n], t.vals[n]), ulrus[q := lrus[n]], src[q := n];
    forall p | 0 <= p < n + 1 && Live(t, p) && !Kept(s, p)
      ensures Beaten(g, v, vl, t.keys[p], lrus[p]) || Overtaken(g, v, vl, t.keys[p], lrus[p], s, p)
    {
      assert s[q] == n;
      StillLater(g, u, ulrus, t, lrus, src, n, q, p);
    }
    ReplaceInOrder(g, u, ulrus, t, lrus, src, n, q);
  }

  lemma StillLater<Key(!new), Val>(g: Layout<Key>, u: Table<Key, Val>, ulrus: seq<int>, t: Table<Key, Val>,
                                   lrus: seq<int>, src: seq<int>, n: nat, q: int, p: int)
    requires GoodLayout(g) && Fits(g, u) && AtHome(g, u) && Moved(u, ulrus, t, lrus, src, n)
             && LaterStays(g, u, ulrus, t, lrus, src, n)
    requires n < |t.states| && Live(t, n) && HomeFull(g, u, t.keys[n]) && LeastUsed(g, ulrus, t.keys[n], q)
             && ulrus[q] <= lrus[n]
    requires 0 <= p < n && Live(t, p) && !Kept(src[q := n], p)
    ensures var v, vl := Store(g, u, q, t.keys[n], t.vals[n]), ulrus[q := lrus[n]];
      Beaten(g, v, vl, t.keys[p], lrus[p]) || Overtaken(g, v, vl, t.keys[p], lrus[p], src[q := n], p)
  {
    hide GoodLayout;
    var v, vl, s := Store(g, u, q, t.keys[n], t.vals[n]), ulrus[q := lrus[n]], src[q := n];
    assert Live(u, q);
    if src[q] == p {
      assert u.keys[q] == t.keys[p] && ulrus[q] == lrus[p] && g.rank(t.keys[p], q) == 0;
      assert s[q] > p && lrus[p] <= vl[q];
    } else {
      NotKept(src, q, n, p);
      if Overtaken(g, u, ulrus, t.keys[p], lrus[p], src, p) {
        var r :| 0 <= r < |src| && g.rank(t.keys[p], r) == 0 && src[r] > p && lrus[p] <= ulrus[r];
        assert s[r] > p && lrus[p] <= vl[r];
      } else {
        StoreIsLive(g, u, q, t.keys[n], t.vals[n]);
        forall r | 0 <= r < |v.states| && g.rank(t.keys[p], r) == 0 ensures Live(v, r) && lrus[p] < vl[r] {
          assert Live(u, r) && lrus[p] < ulrus[r];
        }
      }
    }
  }

  lemma ReplaceInOrder<Key(!new), Val>(g: Layout<Key>, u: Table<Key, Val>, ulrus: seq<int>, t: Table<Key, Val>,
                                       lrus: seq<int>, src: seq<int>, n: nat, q: int)
    requires GoodLayout(g) && Fits(g, u) && Moved(u, ulrus, t, lrus, src, n) && FilledInOrder(g, u, src)
    requires n < |t.states| && Live(t, n) && HomeFull(g, u, t.keys[n]) && 0 <= q < |src| && g.rank(t.keys[n], q) == 0
    ensures FilledInOrder(g, Store(g, u, q, t.keys[n], t.vals[n]), src[q := n])
  {
    hide GoodLayout;
    var v, s := Store(g, u, q, t.keys[n], t.vals[n]), src[q := n];
    StoreIsLive(g, u, q, t.keys[n], t.vals[n]);
    assert forall x :: Live(v, x) <==> Live(u, x) by { assert Live(u, q); }
    forall x | 0 <= x < |src| && g.bucket[x] == g.bucket[q]
      ensures Live(u, x) { SameBucketSameRank(g, t.keys[n], x, q); }
  }

  // ---------------------------------------------------------------- growing

  /** Keys with the same home in `g` have the same home in `h`. */
  ghost predicate Refines<Key(!new)>(g: Layout<Key>, h: Layout<Key>) {
    forall k: Key, l: Key {:trigger g.path(k, 0), g.path(l, 0)} :: g.path(k, 0) == g.path(l, 0) ==>
        h.path(k, 0) == h.path(l, 0)
  }

  lemma LinearHome(pos: int, K: nat, n: nat)
    requires IsPow2(K) && K > 0 && n > 0
    ensures K * n > 0 && BucketAt(Linear(0), pos, K, K * n, 0) == K * ((pos / K) % n)
  {
    BucketIndex(Linear(0), pos, K, n, 0);
    assert Hop(Linear(0), 0) == 0;
    assert Index(Linear(0), 1, pos / K, 0) == pos / K;
  }

  lemma ModDivides(x: int, n: nat, m: nat)
    requires n > 0 && m > 0
    ensures n * m > 0 && (x % (n * m)) % n == x % n
  {
    AtLeastOnce(n, m);
    var q, s := x / (n * m), x % (n * m);
    assert x == (n * m) * q + s;
    assert (n * m) * q == n * (m * q);
    AddMultiple(s, n, m * q);
  }

  lemma BucketCount(K: nat, n: nat, m: nat, C: nat)
    requires K > 0 && C == (K * n) * m > 0
    ensures C == K * (n * m) && C / K == n * m && m > 0
  {
    assert (K * n) * m == K * (n * m);
    DivMod(C, K, n * m, 0);
  }

  /** With a multiple of the buckets, each new bucket draws from one old one. */
  lemma GrowingRefines<Key(!new)>(hash: ML.Hashing<Key>, K: nat, n: nat, m: nat)
    requires IsPow2(K) && K > 0 && n > 0 && m > 0
    ensures K * n > 0 && K * (n * m) > 0
    ensures Refines(ML.Make(hash, Linear(0), K, n * m, K * (n * m)), ML.Make(hash, Linear(0), K, n, K * n))
  {
    AtLeastOnce(n, m);
    AtLeastOnce(K, n);
    AtLeastOnce(K, n * m);
    var g, h := ML.Make(hash, Linear(0), K, n * m, K * (n * m)), ML.Make(hash, Linear(0), K, n, K * n);
    forall k: Key, l: Key {:trigger g.path(k, 0), g.path(l, 0)} | g.path(k, 0) == g.path(l, 0)
      ensures h.path(k, 0) == h.path(l, 0) {
      SameBucketBelow(hash.home(k), hash.home(l), K, n, m);
    }
  }

  lemma SameBucketBelow(x: int, y: int, K: nat, n: nat, m: nat)
    requires IsPow2(K) && K > 0 && n > 0 && m > 0 && n * m > 0 && K * n > 0 && K * (n * m) > 0
    requires BucketAt(Linear(0), x, K, K * (n * m), 0) == BucketAt(Linear(0), y, K, K * (n * m), 0)
    ensures BucketAt(Linear(0), x, K, K * n, 0) == BucketAt(Linear(0), y, K, K * n, 0)
  {
    hide BucketAt;
    LinearHome(x, K, n * m);
    LinearHome(y, K, n * m);
    LinearHome(x, K, n);
    LinearHome(y, K, n);
    if (x / K) % (n * m) != (y / K) % (n * m) { DistinctMultiples(K, (x / K) % (n * m), (y / K) % (n * m)); }
    ModDivides(x / K, n, m);
    ModDivides(y / K, n, m);
  }

  /** As many distinct numbers as an interval is long do not fit into less. */
  lemma TooMany(xs: seq<int>, lo: int, hi: int)
    requires lo <= hi && (forall i :: 0 <= i < |xs| ==> lo <= xs[i] < hi)
             && (forall i, j :: 0 <= i < j < |xs| ==> xs[i] != xs[j])
    ensures |xs| <= hi - lo
  {
    var shifted := seq(|xs|, i requires 0 <= i < |xs| => xs[i] - lo);
    L.DistinctImage(shifted, |xs|);
    var image := set i | 0 <= i < |xs| :: shifted[i];
    assert image <= Below(hi - lo);
    L.SubsetSize(image, Below(hi - lo));
  }

  /** When the new buckets refine the old ones there is always room. */
  lemma AlwaysRoom<Key(!new), Val>(g: Layout<Key>, h: Layout<Key>, u: Table<Key, Val>, ulrus: seq<int>,
                                   t: Table<Key, Val>, lrus: seq<int>, src: seq<int>, n: nat)
    requires GoodLayout(g) && GoodLayout(h) && Refines(g, h) && g.K == h.K && g.n > 0 && h.n > 0
    requires Fits(g, u) && AtHome(g, u) && Fits(h, t) && AtHome(h, t) && Moved(u, ulrus, t, lrus, src, n)
    requires n < |t.states| && Live(t, n)
    ensures !HomeFull(g, u, t.keys[n])
  {
    hide GoodLayout, Refines;
    var k := t.keys[n];
    var b, o := g.path(k, 0), h.path(k, 0);
    BucketRange(g, k, 0);
    BucketRange(h, k, 0);
    if HomeFull(g, u, k) {
      var xs := src[b..b + g.K];
      forall i | 0 <= i < |xs| ensures o <= xs[i] < n {
        assert xs[i] == src[b + i] && Live(u, b + i);
        SourceBucket(g, h, u, ulrus, t, lrus, src, n, k, b + i);
      }
      TooMany(xs, o, n);
    }
  }

  /** What lies in the new home of a key came from its old home. */
  lemma SourceBucket<Key(!new), Val>(g: Layout<Key>, h: Layout<Key>, u: Table<Key, Val>, ulrus: seq<int>,
                                     t: Table<Key, Val>, lrus: seq<int>, src: seq<int>, n: nat, k: Key, q: int)
    requires GoodLayout(g) && GoodLayout(h) && Refines(g, h) && g.n > 0 && h.n > 0
    requires Fits(g, u) && AtHome(g, u) && Fits(h, t) && AtHome(h, t) && Moved(u, ulrus, t, lrus, src, n)
    requires Live(u, q) && g.rank(k, q) == 0
    ensures 0 <= src[q] < n && h.path(k, 0) <= src[q] < h.path(k, 0) + h.K
  {
    var l := u.keys[q];
    SameHome(g, k, l, q, q);
    assert h.path(k, 0) == h.path(l, 0);
    assert h.rank(l, src[q]) == 0;
    BucketRange(h, l, 0);
  }

  lemma SrcSize<Key(!new), Val>(u: Table<Key, Val>, ulrus: seq<int>, t: Table<Key, Val>, lrus: seq<int>, src: seq<int>,
                                n: nat)
    requires Moved(u, ulrus, t, lrus, src, n)
    ensures |src| == |u.states| == |u.keys| == |u.vals| == |ulrus|
  {
  }

  /** What is known of a key that is about to be copied. */
  lemma NewHere<Key(!new), Val>(g: Layout<Key>, u: Table<Key, Val>, ulrus: seq<int>, h: Layout<Key>, t: Table<Key, Val>,
                                lrus: seq<int>, dup: bool, src: seq<int>, n: nat)
    requires GoodLayout(g) && GoodLayout(h) && g.K == h.K && g.n > 0 && h.n > 0
    requires CacheInv(g, u, ulrus, dup) && CacheInv(h, t, lrus, dup) && Moved(u, ulrus, t, lrus, src, n)
             && n < |t.states| && Live(t, n)
    ensures !dup ==> !Holds(u, t.keys[n])
    ensures Refines(g, h) ==> !HomeFull(g, u, t.keys[n])
    ensures 0 <= lrus[n] <= MAX_LRU && AtHome(g, u)
  {
    if !dup { NotYetMoved(h, u, ulrus, t, lrus, src, n); }
    if Refines(g, h) { AlwaysRoom(g, h, u, ulrus, t, lrus, src, n); }
  }
}
