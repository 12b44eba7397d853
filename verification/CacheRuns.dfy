/** Whole runs of a cache without duplicates: it is the forgetful map of its entries, with their
    counters. */
module CacheRuns {
  import opened Slots
  import opened Probing
  import opened Rebuild
  import opened Dictionary
  import opened CacheTable
  import opened CacheResize
  import opened Conf
  import opened Kernels
  import opened LruCache
  import opened ForgetfulMap

  // ---------------------------------------------------------------- what a table holds

  /** The table with the counters beside the values. */
  ghost function Zip<Key, Val>(t: Table<Key, Val>, lrus: seq<int>): (z: Table<Key, Slot<Val>>)
    requires |t.states| == |t.keys| == |t.vals| == |lrus|
    ensures z.states == t.states && z.keys == t.keys && |z.vals| == |t.vals|
    ensures forall p :: 0 <= p < |t.vals| ==> z.vals[p] == Slot(t.vals[p], lrus[p])
  {
    Table(t.states, t.keys, seq(|t.vals|, p requires 0 <= p < |t.vals| => Slot(t.vals[p], lrus[p])))
  }

  /** The entries and their counters. */
  ghost function HeldBy<Key(!new), Val(!new)>(t: Table<Key, Val>, lrus: seq<int>): map<Key, Slot<Val>>
    requires |t.states| == |t.keys| == |t.vals| == |lrus|
  {
    AsMap(Zip(t, lrus))
  }

  ghost predicate Holding<Key(!new), Val>(t: Table<Key, Val>, lrus: seq<int>, h: map<Key, Slot<Val>>) {
    && |t.states| == |t.keys| == |t.vals| == |lrus|
    && (forall p :: Live(t, p) ==> t.keys[p] in h && h[t.keys[p]] == Slot(t.vals[p], lrus[p]))
    && (forall k :: k in h ==> Holds(t, k))
  }

  lemma TableHolds<Key(!new), Val(!new)>(g: Layout<Key>, t: Table<Key, Val>, lrus: seq<int>)
    requires GoodLayout(g) && Inv(g, t, false) && |lrus| == |t.states|
    ensures Holding(t, lrus, HeldBy(t, lrus)) && |HeldBy(t, lrus)| == |Bag(t)|
  {
    hide GoodLayout, AsMap, Bag, Count;
    var z, h := Zip(t, lrus), HeldBy(t, lrus);
    ZipInv(g, t, lrus);
    TableIsMap(g, z);
    Size(t);
    Size(z);
    forall p | Live(t, p) ensures t.keys[p] in h && h[t.keys[p]] == Slot(t.vals[p], lrus[p]) {
      assert Live(z, p);
      LiveIsEntry(z, h, p);
    }
    forall k | k in h ensures Holds(t, k) {
      HoldsIsIn(z, h, k);
      SameHolds(t, z, k);
    }
  }

  lemma ZipInv<Key(!new), Val(!new)>(g: Layout<Key>, t: Table<Key, Val>, lrus: seq<int>)
    requires Inv(g, t, false) && |lrus| == |t.states|
    ensures Inv(g, Zip(t, lrus), false)
  {
    var z := Zip(t, lrus);
    assert forall p :: (Live(z, p) <==> Live(t, p)) && (EmptyAt(z, p) <==> EmptyAt(t, p)) && (TombAt(z, p) <==>
             TombAt(t, p));
  }

  lemma SameHolds<Key, Val, Slt>(t: Table<Key, Val>, z: Table<Key, Slt>, k: Key)
    requires |t.states| == |t.keys| && z.states == t.states && z.keys == t.keys && Holds(z, k)
    ensures Holds(t, k)
  {
    var p :| Live(z, p) && z.keys[p] == k;
    assert Live(t, p);
  }

  lemma CacheHolds<Key(!new), Val(!new)>(g: Layout<Key>, t: Table<Key, Val>, lrus: seq<int>)
    requires GoodLayout(g) && CacheInv(g, t, lrus, false)
    ensures |t.states| == |t.keys| == |t.vals| == |lrus|
    ensures Holding(t, lrus, HeldBy(t, lrus)) && |HeldBy(t, lrus)| == |Bag(t)| && UniqueKeys(g, t)
  {
    hide GoodLayout, HeldBy, Bag;
    CacheIsTable(g, t, lrus, false);
    TableHolds(g, t, lrus);
  }

  lemma InHolding<Key(!new), Val>(t: Table<Key, Val>, lrus: seq<int>, h: map<Key, Slot<Val>>, key: Key)
    requires Holding(t, lrus, h)
    ensures Holds(t, key) <==> key in h
  {
  }

  lemma SlotOf<Key(!new), Val>(t: Table<Key, Val>, lrus: seq<int>, h: map<Key, Slot<Val>>, k: Key) returns (p: int)
    requires Holding(t, lrus, h) && k in h
    ensures Live(t, p) && t.keys[p] == k && h[k] == Slot(t.vals[p], lrus[p])
  {
    p :| Live(t, p) && t.keys[p] == k;
  }

  // ---------------------------------------------------------------- the keys of one bucket

  ghost function KeysIn<Key(!new), Val>(t: Table<Key, Val>, b: int, n: nat): (s: set<Key>)
    requires 0 <= b && b + n <= |t.states| == |t.keys|
    ensures |s| <= n
    ensures forall k :: k in s <==> exists p :: b <= p < b + n && Live(t, p) && t.keys[p] == k
  {
    if n == 0 then {}
    else
      var s := KeysIn(t, b, n - 1);
      if Live(t, b + n - 1) then s + {t.keys[b + n - 1]} else s
  }

  lemma KeysStep<Key(!new), Val>(t: Table<Key, Val>, b: int, n: nat)
    requires 0 <= b && n > 0 && b + n <= |t.states| == |t.keys| && Live(t, b + n - 1)
    ensures KeysIn(t, b, n) == KeysIn(t, b, n - 1) + {t.keys[b + n - 1]}
  {
  }

  lemma OtherKeys<Key(!new), Val>(g: Layout<Key>, t: Table<Key, Val>, b: int, n: nat)
    requires Fits(g, t) && UniqueKeys(g, t) && 0 <= b && b + n < |t.states| && Live(t, b + n)
    ensures t.keys[b + n] !in KeysIn(t, b, n)
  {
    assert forall p :: b <= p < b + n && Live(t, p) ==> t.keys[p] != t.keys[b + n];
  }

  /** In a full bucket they are as many as it has slots. */
  lemma {:induction false} FullBucket<Key(!new), Val>(g: Layout<Key>, t: Table<Key, Val>, b: int, n: nat)
    requires Fits(g, t) && UniqueKeys(g, t) && 0 <= b && b + n <= |t.states|
    requires forall p :: b <= p < b + n ==> Live(t, p)
    ensures |KeysIn(t, b, n)| == n
  {
    hide KeysIn, UniqueKeys;
    if n > 0 {
      FullBucket(g, t, b, n - 1);
      OtherKeys(g, t, b, n - 1);
      KeysStep(t, b, n);
    }
  }

  /** If all slots of a bucket hold entries used `uses` times or more, it makes a crowd. */
  lemma BucketCrowds<Key(!new), Val>(g: Layout<Key>, t: Table<Key, Val>, lrus: seq<int>, h: map<Key, Slot<Val>>,
                                     key: Key,
                                     uses: int)
    requires GoodLayout(g) && g.n > 0 && Fits(g, t) && UniqueKeys(g, t) && Holding(t, lrus, h)
    requires forall q :: 0 <= q < |t.states| && g.rank(key, q) == 0 ==> Live(t, q) && uses <= lrus[q]
    ensures Crowded(g.K, h, uses)
  {
    hide GoodLayout;
    BucketRange(g, key, 0);
    var b := g.path(key, 0);
    FullBucket(g, t, b, g.K);
    var full := KeysIn(t, b, g.K);
    forall k | k in full ensures k in h && h[k].uses >= uses {
      var p :| b <= p < b + g.K && Live(t, p) && t.keys[p] == k;
    }
  }

  // ---------------------------------------------------------------- counting a use

  lemma TouchedCount<Key>(g: Layout<Key>, lrus: seq<int>, p: int, q: int)
    requires GoodBuckets(g) && |lrus| == |g.bucket| && 0 <= p < |lrus| && 0 <= q < |lrus|
    ensures Touched(g, lrus, p)[q]
            == lrus[q] / (if g.bucket[q] == g.bucket[p] && lrus[p] >= MAX_LRU then 2 else 1) + if q == p then 1 else 0
  {
    TouchedAt(g, lrus, p, q);
    TouchedAt(g, lrus, p, p);
  }

  lemma TouchCounts<Key(!new), Val>(g: Layout<Key>, t: Table<Key, Val>, lrus: seq<int>, h: map<Key, Slot<Val>>,
                                    c: map<Key, Slot<Val>>, pos: int)
    requires GoodBuckets(g) && Fits(g, t) && UniqueKeys(g, t) && Live(t, pos)
    requires |lrus| == |g.bucket| && Holding(t, lrus, h) && Holding(t, Touched(g, lrus, pos), c)
    ensures UsedOnce(g.K, h, t.keys[pos], c)
  {
    hide Touched;
    var b, key := g.bucket[pos], t.keys[pos];
    var bucket := KeysIn(t, b, g.K);
    assert b <= pos < b + g.K && key in bucket;
    SameKeys(t, lrus, Touched(g, lrus, pos), h, c);
    forall k | k in h
      ensures k in c && c[k].val == h[k].val
      ensures c[k].uses == h[k].uses / (if k in bucket && h[key].uses >= MAX_LRU then 2 else 1) + if k == key then 1
              else 0
    {
      var q := SlotOf(t, lrus, h, k);
      TouchedCount(g, lrus, pos, q);
      InBucket(g, t, b, q);
    }
    assert Counts(h, key, c, bucket);
  }

  lemma InBucket<Key(!new), Val>(g: Layout<Key>, t: Table<Key, Val>, b: int, q: int)
    requires GoodBuckets(g) && Fits(g, t) && UniqueKeys(g, t) && Live(t, q) && 0 <= b < |g.bucket| && g.bucket[b] == b
    ensures b + g.K <= |t.states| && (t.keys[q] in KeysIn(t, b, g.K) <==> g.bucket[q] == b)
  {
    if t.keys[q] in KeysIn(t, b, g.K) {
      var p :| b <= p < b + g.K && Live(t, p) && t.keys[p] == t.keys[q];
      assert p == q;
    }
  }

  lemma SameKeys<Key(!new), Val>(t: Table<Key, Val>, lrus: seq<int>, more: seq<int>, h: map<Key, Slot<Val>>,
                                 c: map<Key, Slot<Val>>)
    requires Holding(t, lrus, h) && Holding(t, more, c)
    ensures h.Keys == c.Keys
  {
    forall k ensures k in h <==> k in c {
      InHolding(t, lrus, h, k);
      InHolding(t, more, c, k);
    }
  }

  // ---------------------------------------------------------------- one operation

  lemma HoldingPart<Key(!new), Val>(t: Table<Key, Val>, lrus: seq<int>, u: Table<Key, Val>, ulrus: seq<int>,
                                    h: map<Key, Slot<Val>>, c: map<Key, Slot<Val>>, src: seq<int>)
    requires Holding(t, lrus, h) && Holding(u, ulrus, c) && |src| == |u.states|
    requires forall q :: Live(u, q) ==> Live(t, src[q]) && u.keys[q] == t.keys[src[q]] && u.vals[q] == t.vals[src[q]]
                                        && ulrus[q] == lrus[src[q]]
    ensures Part(c, h)
  {
    forall k | k in c ensures k in h && c[k] == h[k] { var q := SlotOf(u, ulrus, c, k); }
  }

  /** A new entry takes slot `pos`. */
  lemma StoreHolding<Key(!new), Val>(g: Layout<Key>, t: Table<Key, Val>, lrus: seq<int>, u: Table<Key, Val>,
                                     h: map<Key, Slot<Val>>, c: map<Key, Slot<Val>>, pos: int, key: Key, val: Val,
                                       uses: int)
    requires Fits(g, t) && UniqueKeys(g, t) && 0 <= pos < |lrus|
    requires Holding(t, lrus, h) && Holding(u, lrus[pos := uses], c) && key !in h
    requires AgreeElsewhere(t, u, pos) && Live(u, pos) && u.keys[pos] == key && u.vals[pos] == val
    ensures if Live(t, pos) then t.keys[pos] in h && c == (h - {t.keys[pos]})[key := Slot(val, uses)]
            else c == h[key := Slot(val, uses)]
  {
    var b := if Live(t, pos) then h - {t.keys[pos]} else h;
    forall k | k in c && k != key ensures k in b && c[k] == b[k] {
      var p := SlotOf(u, lrus[pos := uses], c, k);
      assert p != pos && Live(t, p);
    }
    forall k | k in b ensures k in c {
      var p := SlotOf(t, lrus, h, k);
      assert p != pos && Live(u, p);
    }
    assert c == b[key := Slot(val, uses)];
  }

  /** The entry in slot `pos` is given another value. */
  lemma AssignHolding<Key(!new), Val>(g: Layout<Key>, t: Table<Key, Val>, u: Table<Key, Val>, lrus: seq<int>,
                                      h: map<Key, Slot<Val>>, c: map<Key, Slot<Val>>, pos: int)
    requires Fits(g, t) && UniqueKeys(g, t) && Holding(t, lrus, h) && Holding(u, lrus, c) && Live(t, pos)
    requires AgreeElsewhere(t, u, pos) && Live(u, pos) && u.keys[pos] == t.keys[pos]
    ensures var key := t.keys[pos];
      key in h && key in c && c[key] == Slot(u.vals[pos], lrus[pos]) && h == c[key := Slot(h[key].val, c[key].uses)]
  {
    var key := t.keys[pos];
    forall k ensures k in h <==> k in c {
      if k in h { var p := SlotOf(t, lrus, h, k); assert Live(u, p) && u.keys[p] == k; }
      if k in c { var p := SlotOf(u, lrus, c, k); assert Live(t, p) && t.keys[p] == k; }
    }
    forall k | k in h && k != key ensures h[k] == c[k] {
      var p := SlotOf(t, lrus, h, k);
      assert p != pos && Live(u, p);
    }
  }

  lemma EraseHolding<Key(!new), Val>(g: Layout<Key>, t: Table<Key, Val>, lrus: seq<int>, h: map<Key, Slot<Val>>,
                                     c: map<Key, Slot<Val>>, at: int)
    requires Fits(g, t) && UniqueKeys(g, t) && Holding(t, lrus, h) && Live(t, at)
    requires Holding(SetState(t, at, EMPTY), lrus, c)
    ensures c == h - {t.keys[at]}
  {
    var u := SetState(t, at, EMPTY);
    forall k | k in c ensures k in h - {t.keys[at]} && c[k] == h[k] {
      var p := SlotOf(u, lrus, c, k);
      assert p != at && Live(t, p);
    }
    forall k | k in h - {t.keys[at]} ensures k in c {
      var p := SlotOf(t, lrus, h, k);
      assert p != at && Live(u, p);
    }
  }

  lemma ScrubHolding<Key(!new), Val>(t: Table<Key, Val>, u: Table<Key, Val>, lrus: seq<int>, h: map<Key, Slot<Val>>,
                                     c: map<Key, Slot<Val>>, threshold: int)
    requires Holding(t, lrus, h) && Holding(u, lrus, c) && Purged(t, u, lrus, threshold)
    ensures c == Above(h, threshold)
  {
    forall k | k in c ensures k in h && c[k] == h[k] && h[k].uses >= threshold {
      var p := SlotOf(u, lrus, c, k);
      assert Live(t, p);
    }
    forall k | k in h && h[k].uses >= threshold ensures k in c {
      var p := SlotOf(t, lrus, h, k);
      assert Live(u, p);
    }
  }

  lemma DropHolding<Key(!new), Val>(t: Table<Key, Val>, u: Table<Key, Val>, lrus: seq<int>, h: map<Key, Slot<Val>>,
                                    c: map<Key, Slot<Val>>, drop: (Key, Val) -> bool)
    requires Holding(t, lrus, h) && Holding(u, lrus, c) && DroppedBelow(t, u, drop, |t.states|)
    ensures c == Unselected(h, drop)
  {
    forall k | k in c ensures k in h && c[k] == h[k] && !drop(k, h[k].val) {
      var p := SlotOf(u, lrus, c, k);
      assert Live(t, p);
    }
    forall k | k in h && !drop(k, h[k].val) ensures k in c {
      var p := SlotOf(t, lrus, h, k);
      assert Live(u, p);
    }
  }

  lemma MoveHolding<Key(!new), Val>(g: Layout<Key>, u: Table<Key, Val>, ulrus: seq<int>, t: Table<Key, Val>,
                                    lrus: seq<int>, src: seq<int>, h: map<Key, Slot<Val>>, c: map<Key, Slot<Val>>)
    requires GoodLayout(g) && g.n > 0 && Fits(g, u) && UniqueKeys(g, u)
    requires Moved(u, ulrus, t, lrus, src, |t.states|) && Fair(g, u, ulrus, t, lrus, src, |t.states|)
    requires Holding(t, lrus, h) && Holding(u, ulrus, c)
    ensures Part(c, h) && forall k :: k in h && k !in c ==> Crowded(g.K, c, h[k].uses)
  {
    hide GoodLayout, Crowded, Fair, Holding;
    MovePart(u, ulrus, t, lrus, src, h, c);
    forall k | k in h && k !in c ensures Crowded(g.K, c, h[k].uses) {
      var p := SlotOf(t, lrus, h, k);
      DroppedIsOutranked(g, u, ulrus, t, lrus, src, c, p);
      BucketCrowds(g, u, ulrus, c, k, lrus[p]);
    }
  }

  lemma MovePart<Key(!new), Val>(u: Table<Key, Val>, ulrus: seq<int>, t: Table<Key, Val>, lrus: seq<int>, src: seq<int>,
                                 h: map<Key, Slot<Val>>, c: map<Key, Slot<Val>>)
    requires Moved(u, ulrus, t, lrus, src, |t.states|) && Holding(t, lrus, h) && Holding(u, ulrus, c)
    ensures Part(c, h)
  {
    HoldingPart(t, lrus, u, ulrus, h, c, src);
  }

  lemma DroppedIsOutranked<Key(!new), Val>(g: Layout<Key>, u: Table<Key, Val>, ulrus: seq<int>, t: Table<Key, Val>,
                                           lrus: seq<int>, src: seq<int>, c: map<Key, Slot<Val>>, p: int)
    requires Moved(u, ulrus, t, lrus, src, |t.states|) && Fair(g, u, ulrus, t, lrus, src, |t.states|)
    requires Holding(u, ulrus, c) && Live(t, p) && t.keys[p] !in c
    ensures forall q :: 0 <= q < |u.states| && g.rank(t.keys[p], q) == 0 ==> Live(u, q) && lrus[p] <= ulrus[q]
  {
    assert forall q :: 0 <= q < |src| && src[q] >= 0 ==> Live(u, q);
    assert !Kept(src, p);
  }

  lemma SamePart<Key(!new), Val(!new)>(t: Table<Key, Val>, lrus: seq<int>, u: Table<Key, Val>, ulrus: seq<int>,
                                       h: map<Key, Slot<Val>>, c: map<Key, Slot<Val>>)
    requires Holding(t, lrus, h) && Holding(u, ulrus, c) && Bag(t) == Bag(u) && Part(c, h)
    ensures c == h
  {
    hide Bag, Holds;
    forall k | k in h ensures k in c {
      InHolding(t, lrus, h, k);
      SameBagSameKeys(t, u, k);
      InHolding(u, ulrus, c, k);
    }
  }

  lemma NothingHeld<Key(!new), Val>(t: Table<Key, Val>, lrus: seq<int>, h: map<Key, Slot<Val>>)
    requires Holding(t, lrus, h) && forall p :: 0 <= p < |t.states| ==> t.states[p] == EMPTY
    ensures h == map[]
  {
    assert forall p :: !Live(t, p);
    if k :| k in h { assert false; }
  }

  lemma VictimCrowds<Key(!new), Val>(g: Layout<Key>, t: Table<Key, Val>, lrus: seq<int>, h: map<Key, Slot<Val>>,
                                     key: Key, pos: int)
    requires GoodLayout(g) && g.n > 0 && Fits(g, t) && UniqueKeys(g, t) && Holding(t, lrus, h)
    requires HomeFull(g, t, key) && LeastUsed(g, lrus, key, pos)
    ensures Crowded(g.K, h, lrus[pos])
  {
    BucketCrowds(g, t, lrus, h, key, lrus[pos]);
  }

  /** What a cache holds, and how often it was used. */
  ghost function Entries<Key(0, !new), Val(0, !new)>(c: Cache<Key, Val>): map<Key, Slot<Val>>
    requires |c.table.states| == |c.table.keys| == |c.table.vals| == |c.lrus|
    reads c
  {
    HeldBy(c.table, c.lrus)
  }

  ghost predicate Sized<Key(0, !new), Val(0, !new)>(c: Cache<Key, Val>)
    reads c
  {
    |c.table.states| == |c.table.keys| == |c.table.vals| == |c.lrus|
  }

  /** The part of what is known about a valid cache that the operations need. */
  lemma Known<Key(0, !new), Val(0, !new)>(c: Cache<Key, Val>)
    requires c.Valid() && !c.duplicates
    ensures Sized(c) && GoodLayout(c.layout) && GoodBuckets(c.layout) && Fits(c.layout, c.table)
            && UniqueKeys(c.layout, c.table)
    ensures c.layout.K == c.conf.kernelSize && c.layout.n > 0
            && |c.lrus| == |c.layout.bucket| == c.keys.Length == c.vals.Length
    ensures c.table.keys == c.keys[..] && c.table.vals == c.vals[..]
    ensures Holding(c.table, c.lrus, Entries(c)) && |Entries(c)| == |Bag(c.table)|
  {
    hide c.Sound, CacheInv, Bag, Count, Holding, HeldBy, GoodLayout, GoodBuckets;
    c.Facts();
    CacheHolds(c.layout, c.table, c.lrus);
  }

  method DoPut<Key(==, 0, !new), Val(==, 0, !new)>(c: Cache<Key, Val>, key: Key, val: Val) returns (how: CacheOp)
    requires c.Valid() && !c.duplicates
    modifies c`table, c`lrus, c`numEmpty, c.data, c.keys, c.vals
    ensures c.Valid() && Sized(c) && old(Sized(c))
    ensures Step(c.conf.kernelSize, old(Entries(c)), Put(key, val), Stored(how), Entries(c))
  {
    hide c.Valid, Bag, Holds, Holding, Entries, AgreeElsewhere, GoodLayout, GoodBuckets, HomeFull, LeastUsed,
      UniqueKeys, Touched, UsedOnce, Crowded;
    Known(c);
    ghost var g, t, l, h := c.layout, c.table, c.lrus, Entries(c);
    InHolding(t, l, h, key);
    var pos, op := c.Put(key, val);
    Known(c);
    how := op;
    if op.Found? {
      PutFound(g, t, c.table, l, h, Entries(c), pos);
    } else {
      StoreHolding(g, t, l, c.table, h, Entries(c), pos, key, val, DEFAULT_LRU);
      if op.Replaced? {
        VictimCrowds(g, t, l, h, key, pos);
        SlotAt(t, l, h, pos);
      }
    }
  }

  lemma SlotAt<Key(!new), Val>(t: Table<Key, Val>, lrus: seq<int>, h: map<Key, Slot<Val>>, p: int)
    requires Holding(t, lrus, h) && Live(t, p)
    ensures t.keys[p] in h && h[t.keys[p]] == Slot(t.vals[p], lrus[p])
  {
  }

  /** A use, and then an assignment. */
  lemma PutFound<Key(!new), Val(!new)>(g: Layout<Key>, t: Table<Key, Val>, u: Table<Key, Val>, lrus: seq<int>,
                                       h: map<Key, Slot<Val>>, c: map<Key, Slot<Val>>, pos: int)
    requires GoodLayout(g) && GoodBuckets(g) && Fits(g, t) && UniqueKeys(g, t) && |lrus| == |g.bucket| && Live(t, pos)
    requires Holding(t, lrus, h) && Holding(u, Touched(g, lrus, pos), c)
    requires AgreeElsewhere(t, u, pos) && Live(u, pos) && u.keys[pos] == t.keys[pos]
    ensures Overwrites(g.K, h, t.keys[pos], u.vals[pos], c)
  {
    hide GoodLayout, GoodBuckets, UniqueKeys, AgreeElsewhere, UsedOnce, Touched, Holding;
    var more := Touched(g, lrus, pos);
    var key := t.keys[pos];
    OnlyAt(g, t, pos);
    var d := Midway(t, u, more, c, pos);
    TouchCounts(g, t, lrus, h, d, pos);
    AssignHolding(g, t, u, more, d, c, pos);
    SlotAt(t, lrus, h, pos);
    SlotAt(t, more, d, pos);
  }

  lemma OnlyAt<Key(!new), Val>(g: Layout<Key>, t: Table<Key, Val>, pos: int)
    requires Fits(g, t) && UniqueKeys(g, t) && Live(t, pos)
    ensures forall p :: Live(t, p) && t.keys[p] == t.keys[pos] ==> p == pos
  {
  }

  /** What the cache would hold before the assignment. */
  lemma Midway<Key(!new), Val(!new)>(t: Table<Key, Val>, u: Table<Key, Val>, lrus: seq<int>, c: map<Key, Slot<Val>>,
                                     pos: int)
      returns (d: map<Key, Slot<Val>>)
    requires |t.states| == |t.keys| == |t.vals| && Holding(u, lrus, c) && Live(t, pos) && Live(u, pos)
    requires AgreeElsewhere(t, u, pos) && u.keys[pos] == t.keys[pos]
             && forall p :: Live(t, p) && t.keys[p] == t.keys[pos] ==> p == pos
    ensures Holding(t, lrus, d)
  {
    d := c[t.keys[pos] := Slot(t.vals[pos], lrus[pos])];
    forall p | Live(t, p) ensures t.keys[p] in d && d[t.keys[p]] == Slot(t.vals[p], lrus[p]) {
      if p != pos { assert Live(u, p); }
    }
    forall k | k in d ensures Holds(t, k) {
      if k != t.keys[pos] {
        var p := SlotOf(u, lrus, c, k);
        assert p != pos && Live(t, p) && t.keys[p] == k;
      } else {
        assert Live(t, pos);
      }
    }
  }

  method DoFind<Key(==, 0, !new), Val(==, 0, !new)>(c: Cache<Key, Val>, key: Key) returns (r: Option<Val>)
    requires c.Valid() && !c.duplicates
    modifies c`lrus, c.data
    ensures c.Valid() && Sized(c) && old(Sized(c))
    ensures Step(c.conf.kernelSize, old(Entries(c)), Find(key), Value(r), Entries(c))
  {
    hide c.Valid, Bag, Holds, Holding, Entries, IsFirst, GoodLayout, GoodBuckets, UniqueKeys, Touched, UsedOnce;
    Known(c);
    ghost var g, t, l, h := c.layout, c.table, c.lrus, Entries(c);
    InHolding(t, l, h, key);
    var pos := c.Find(key);
    if pos == -1 {
      SameEntries(c, t, l);
      return None;
    }
    FirstIsHeld(g, t, key, pos);
    Known(c);
    TouchCounts(g, t, l, h, Entries(c), pos);
    SlotAt(t, l, h, pos);
    r := Some(c.vals[pos]);
  }

  lemma SameEntries<Key(0, !new), Val(0, !new)>(c: Cache<Key, Val>, t: Table<Key, Val>, lrus: seq<int>)
    requires c.table == t && c.lrus == lrus && Sized(c)
    ensures Entries(c) == HeldBy(t, lrus)
  {
  }

  method DoErase<Key(==, 0, !new), Val(==, 0, !new)>(c: Cache<Key, Val>, key: Key) returns (n: int)
    requires c.Valid() && !c.duplicates
    modifies c`table, c`numEmpty, c.data
    ensures c.Valid() && Sized(c) && old(Sized(c))
    ensures Step(c.conf.kernelSize, old(Entries(c)), Erase(key), Erased(n), Entries(c))
  {
    hide c.Valid, Bag, Holds, Holding, Entries, IsFirst, GoodLayout, GoodBuckets, UniqueKeys;
    Known(c);
    ghost var g, t, l, h := c.layout, c.table, c.lrus, Entries(c);
    SameEntries(c, t, l);
    InHolding(t, l, h, key);
    var erased, at := c.EraseFirst(key);
    Known(c);
    if erased {
      FirstIsHeld(g, t, key, at);
      EraseHolding(g, t, l, h, Entries(c), at);
    } else {
      SameEntries(c, t, l);
    }
    n := if erased then 1 else 0;
  }

  method DoEraseIf<Key(==, 0, !new), Val(==, 0, !new)>(c: Cache<Key, Val>, drop: (Key, Val) -> bool) returns (n: int)
    requires c.Valid() && !c.duplicates
    modifies c`table, c`numEmpty, c.data
    ensures c.Valid() && Sized(c) && old(Sized(c))
    ensures Step(c.conf.kernelSize, old(Entries(c)), EraseIf(drop), Erased(n), Entries(c))
  {
    hide c.Valid, Bag, Holds, Holding, Entries, GoodLayout, GoodBuckets, UniqueKeys, DroppedBelow;
    Known(c);
    ghost var t, l, h := c.table, c.lrus, Entries(c);
    n := c.EraseIf(drop);
    Known(c);
    DropHolding(t, c.table, l, h, Entries(c), drop);
  }

  method DoScrub<Key(==, 0, !new), Val(==, 0, !new)>(c: Cache<Key, Val>, threshold: int) returns (n: int)
    requires c.Valid() && !c.duplicates
    modifies c`table, c`numEmpty, c.data
    ensures c.Valid() && Sized(c) && old(Sized(c))
    ensures Step(c.conf.kernelSize, old(Entries(c)), Scrub(threshold), Erased(n), Entries(c))
  {
    hide c.Valid, Bag, Holds, Holding, Entries, GoodLayout, GoodBuckets, UniqueKeys, Purged;
    Known(c);
    ghost var t, l, h := c.table, c.lrus, Entries(c);
    SameEntries(c, t, l);
    n := c.Scrub(threshold);
    Known(c);
    if threshold < MAX_LRU { ScrubHolding(t, c.table, l, h, Entries(c), threshold); } else { SameEntries(c, t, l); }
  }

  method DoResize<Key(==, 0, !new), Val(==, 0, !new)>(c: Cache<Key, Val>, want: nat) returns (before: int, after: int)
    requires c.Valid() && !c.duplicates
    modifies c
    ensures c.Valid() && Sized(c) && old(Sized(c)) && fresh(c.Repr() - old(c.Repr()))
    ensures before == |old(c.table).states| && after == |c.table.states|
    ensures Step(c.conf.kernelSize, old(Entries(c)), Resize(want), Resized(before, after), Entries(c))
  {
    hide c.Valid, Bag, Holds, Holding, Entries, GoodLayout, GoodBuckets, UniqueKeys, Moved, Fair, Crowded, Part;
    Known(c);
    ghost var t, l, h := c.table, c.lrus, Entries(c);
    SameEntries(c, t, l);
    BitCeilIsPow2(want);
    before := c.keys.Length;
    ghost var src;
    after, src := c.Resize(BitCeil(want));
    Known(c);
    if after == before {
      SameEntries(c, t, l);
      PartOfItself(h);
    } else {
      MoveHolding(c.layout, c.table, c.lrus, t, l, src, h, Entries(c));
      if after > before { SamePart(t, l, c.table, c.lrus, h, Entries(c)); }
    }
  }

  lemma PartOfItself<Key(!new), Val>(m: map<Key, Val>)
    ensures Part(m, m)
  {
  }

  method DoClear<Key(==, 0, !new), Val(==, 0, !new)>(c: Cache<Key, Val>)
    requires c.Valid() && !c.duplicates
    modifies c`table, c`lrus, c`numEmpty, c.data
    ensures c.Valid() && Sized(c) && old(Sized(c)) && Entries(c) == map[]
  {
    hide c.Valid, Bag, Holds, Holding, Entries, GoodLayout, GoodBuckets, UniqueKeys;
    Known(c);
    c.Clear();
    Known(c);
    NothingHeld(c.table, c.lrus, Entries(c));
  }

  /** One operation does to the cache what it does to a map that may forget. */
  method Perform<Key(==, 0, !new), Val(==, 0, !new)>(c: Cache<Key, Val>, op: Op<Key, Val>) returns (r: Reply<Val>)
    requires c.Valid() && !c.duplicates
    modifies c, c.data, c.keys, c.vals
    ensures c.Valid() && fresh(c.Repr() - old(c.Repr())) && Sized(c) && old(Sized(c))
    ensures Step(c.conf.kernelSize, old(Entries(c)), op, r, Entries(c))
  {
    hide c.Valid, Entries, Part, Evicts, Overwrites, UsedOnce, Crowded, Unselected, Above;
    match op {
      case Put(k, v) =>
        var how := DoPut(c, k, v);
        r := Stored(how);
      case Find(k) =>
        var v := DoFind(c, k);
        r := Value(v);
      case Erase(k) =>
        var n := DoErase(c, k);
        r := Erased(n);
      case EraseIf(drop) =>
        var n := DoEraseIf(c, drop);
        r := Erased(n);
      case Scrub(threshold) =>
        var n := DoScrub(c, threshold);
        r := Erased(n);
      case Resize(want) =>
        var before, after := DoResize(c, want);
        r := Resized(before, after);
      case Clear =>
        DoClear(c);
        r := Done;
    }
  }

  /** Any sequence of operations answers, and leaves, what a map that may forget does. */
  method Run<Key(==, 0, !new), Val(==, 0, !new)>(c: Cache<Key, Val>, ops: seq<Op<Key, Val>>)
      returns (replies: seq<Reply<Val>>, ghost held: seq<map<Key, Slot<Val>>>)
    requires c.Valid() && !c.duplicates
    modifies c, c.data, c.keys, c.vals
    ensures c.Valid() && fresh(c.Repr() - old(c.Repr())) && Sized(c) && old(Sized(c))
    ensures IsRun(c.conf.kernelSize, held, ops, replies)
    ensures held[0] == old(Entries(c)) && held[|ops|] == Entries(c)
  {
    hide c.Valid, IsRun, Step, Entries;
    Known(c);
    ghost var K, h0 := c.conf.kernelSize, Entries(c);
    replies, held := [], [h0];
    RunStart<Key, Val>(K, h0);
    for i := 0 to |ops|
      invariant c.Valid() && fresh(c.Repr() - old(c.Repr())) && Sized(c)
      invariant |held| == i + 1 && held[0] == h0 && held[i] == Entries(c) && IsRun(K, held, ops[..i], replies)
    {
      var r := Perform(c, ops[i]);
      RunOneMore(K, held, ops[..i], replies, ops[i], r, Entries(c));
      assert ops[..i + 1] == ops[..i] + [ops[i]];
      replies, held := replies + [r], held + [Entries(c)];
    }
    assert ops[..|ops|] == ops;
  }
}
