/** Searching the buckets of a key's probe path, and finding the place of a new entry.

    Each lemma is one step of a search loop: what is known about the first `j` buckets of
    the path, and what the next bucket adds. */
module Probing {
  import opened Slots

  // ---------------------------------------------------------------- searching

  /** The slots of the bucket probed in step `j` are exactly those of rank `j`. */
  lemma BucketRange<Key(!new)>(g: Layout<Key>, key: Key, j: int)
    requires GoodLayout(g) && 0 <= j < g.n
    ensures 0 <= g.path(key, j) && g.path(key, j) + g.K <= |g.bucket|
    ensures forall p :: g.path(key, j) <= p < g.path(key, j) + g.K ==>
              g.bucket[p] == g.path(key, j) && g.rank(key, p) == j
    ensures forall p :: 0 <= p < |g.bucket| && g.rank(key, p) == j ==> g.path(key, j) <= p < g.path(key, j) + g.K
  {
  }

  lemma RankBounds<Key(!new)>(g: Layout<Key>, key: Key, p: int)
    requires GoodLayout(g) && 0 <= p < |g.bucket|
    ensures 0 <= g.rank(key, p) < g.n
  {
  }

  lemma SomeEmpty<Key, Val>(t: Table<Key, Val>) returns (e: int)
    requires Count(t.states, EMPTY) >= 1
    ensures EmptyAt(t, e)
  {
    assert EMPTY in multiset(t.states);
    assert EMPTY in t.states;
    e :| 0 <= e < |t.states| && t.states[e] == EMPTY;
  }

  ghost predicate Holds<Key, Val>(t: Table<Key, Val>, key: Key)
    requires |t.states| == |t.keys|
  {
    exists p :: Live(t, p) && t.keys[p] == key
  }

  /** Slot `pos` holds `key`, and no slot that holds it comes earlier in probe order. */
  ghost predicate IsFirst<Key, Val>(g: Layout<Key>, t: Table<Key, Val>, key: Key, pos: int)
    requires |t.states| == |t.keys|
  {
    && Live(t, pos) && t.keys[pos] == key
    && (forall p :: Live(t, p) && t.keys[p] == key ==>
          g.rank(key, pos) < g.rank(key, p) || (g.rank(key, pos) == g.rank(key, p) && pos <= p))
  }

  /** No slot that `key` probes before step `j` holds it. */
  ghost predicate NotBefore<Key, Val>(g: Layout<Key>, t: Table<Key, Val>, key: Key, j: int)
    requires |t.states| == |t.keys|
  {
    forall p :: Live(t, p) && g.rank(key, p) < j ==> t.keys[p] != key
  }

  lemma FoundIsFirst<Key(!new), Val>(g: Layout<Key>, t: Table<Key, Val>, key: Key, j: int, pos: int)
    requires GoodLayout(g) && Fits(g, t) && 0 <= j < g.n && NotBefore(g, t, key, j)
    requires g.path(key, j) <= pos < g.path(key, j) + g.K && Live(t, pos) && t.keys[pos] == key
    requires forall p :: g.path(key, j) <= p < pos && Live(t, p) ==> t.keys[p] != key
    ensures IsFirst(g, t, key, pos) && g.rank(key, pos) == j
  {
    BucketRange(g, key, j);
  }

  lemma BucketSearched<Key(!new), Val>(g: Layout<Key>, t: Table<Key, Val>, key: Key, j: int)
    requires GoodLayout(g) && Fits(g, t) && 0 <= j < g.n && NotBefore(g, t, key, j)
    requires forall p :: g.path(key, j) <= p < g.path(key, j) + g.K && Live(t, p) ==> t.keys[p] != key
    ensures NotBefore(g, t, key, j + 1)
  {
    BucketRange(g, key, j);
  }

  /** Step `j` is the first one in which `key` comes to a bucket with an empty slot. */
  ghost predicate EndsAt<Key, Val>(g: Layout<Key>, t: Table<Key, Val>, key: Key, j: int) {
    (exists e :: EmptyAt(t, e) && g.rank(key, e) == j) && forall e :: EmptyAt(t, e) ==> g.rank(key, e) >= j
  }

  lemma {:induction false} FirstEmpty<Key(!new), Val>(g: Layout<Key>, t: Table<Key, Val>, key: Key, e0: int)
                                                      returns (e: int)
    requires GoodLayout(g) && Fits(g, t) && EmptyAt(t, e0)
    ensures EmptyAt(t, e) && 0 <= g.rank(key, e) < g.n && EndsAt(g, t, key, g.rank(key, e))
    decreases g.rank(key, e0)
  {
    RankBounds(g, key, e0);
    if e1 :| EmptyAt(t, e1) && g.rank(key, e1) < g.rank(key, e0) {
      RankBounds(g, key, e1);
      e := FirstEmpty(g, t, key, e1);
    } else {
      e := e0;
    }
  }

  lemma EndsHere<Key, Val>(g: Layout<Key>, t: Table<Key, Val>, key: Key, j: int, e: int)
    requires EndsAt(g, t, key, j) && EmptyAt(t, e)
    ensures j <= g.rank(key, e)
  {
  }

  lemma EndsLater<Key, Val>(g: Layout<Key>, t: Table<Key, Val>, key: Key, j: int, i: int)
    requires EndsAt(g, t, key, j) && i <= j
    ensures forall e :: EmptyAt(t, e) ==> g.rank(key, e) >= i
  {
  }

  /** An empty slot ends the search: a key that was not met up to its bucket is absent. */
  lemma EmptyEndsSearch<Key(!new), Val>(g: Layout<Key>, t: Table<Key, Val>, dup: bool, key: Key, e: int)
    requires GoodLayout(g) && Inv(g, t, dup) && EmptyAt(t, e) && NotBefore(g, t, key, g.rank(key, e) + 1)
    ensures !Holds(t, key)
  {
  }

  /** The states of the bucket at `off`, as a kernel loads them. */
  function Loaded(states: seq<int>, off: int, K: nat): seq<int>
    requires 0 <= off && off + K <= |states|
  {
    states[off..off + K]
  }

  /** What a kernel is given, and what it answers, in step `j` of a search for `key`. */
  lemma BucketMask<Key(!new), Val>(g: Layout<Key>, t: Table<Key, Val>, matcher: (seq<int>, int) -> seq<int>, key: Key,
                                   j: int)
    requires GoodLayout(g) && Fits(g, t) && Fingerprinted(g, t) && GoodMatcher(matcher, g.K) && 0 <= j < g.n
    ensures 0 <= g.path(key, j) && g.path(key, j) + g.K <= |t.states|
    ensures var k := Loaded(t.states, g.path(key, j), g.K);
      var m := matcher(k, g.finger(key));
      && Matches(k, g.finger(key), m)
      && (forall l :: 0 <= l < |m| ==> 0 <= m[l] < g.K)
  {
    BucketRange(g, key, j);
    var k := Loaded(t.states, g.path(key, j), g.K);
    forall i | 0 <= i < |k| ensures ValidState(k[i]) { assert k[i] == t.states[g.path(key, j) + i]; }
  }

  lemma NothingBefore<Key(!new), Val>(g: Layout<Key>, t: Table<Key, Val>, key: Key)
    requires GoodLayout(g) && Fits(g, t)
    ensures NotBefore(g, t, key, 0)
  {
  }

  /** None of the first `i` slots that a mask names, in the bucket at `off`, holds `key`. */
  ghost predicate Rejected<Key>(keys: seq<Key>, off: int, m: seq<int>, i: int, key: Key) {
    forall l :: 0 <= l < i && l < |m| ==> 0 <= off + m[l] < |keys| && keys[off + m[l]] != key
  }

  /** Slots that hold the key are in the mask. */
  lemma InMask<Key, Val>(g: Layout<Key>, t: Table<Key, Val>, key: Key, off: int, m: seq<int>, p: int)
    requires Fits(g, t) && Fingerprinted(g, t) && 0 <= off && off + g.K <= |t.states| && off <= p < off + g.K
    requires Matches(Loaded(t.states, off, g.K), g.finger(key), m) && Live(t, p) && t.keys[p] == key
    ensures p - off in m
  {
    assert Loaded(t.states, off, g.K)[p - off] == t.states[p];
  }

  lemma MaskSlot<Key, Val>(g: Layout<Key>, t: Table<Key, Val>, off: int, s: int, m: seq<int>, i: nat)
    requires Fits(g, t) && 0 <= off && off + g.K <= |t.states| && Matches(Loaded(t.states, off, g.K), s, m) && i < |m|
    ensures 0 <= m[i] < g.K && Live(t, off + m[i]) && forall x, y :: 0 <= x < y < |m| ==> m[x] < m[y]
  {
    assert IsHash(Loaded(t.states, off, g.K)[m[i]]);
  }

  /** A matching slot whose key compares equal, after earlier ones that did not. */
  lemma MaskHit<Key(!new), Val>(g: Layout<Key>, t: Table<Key, Val>, key: Key, j: int, m: seq<int>, i: nat)
    requires GoodLayout(g) && Fits(g, t) && Fingerprinted(g, t) && 0 <= j < g.n && NotBefore(g, t, key, j)
    requires 0 <= g.path(key, j) && g.path(key, j) + g.K <= |t.states|
    requires Matches(Loaded(t.states, g.path(key, j), g.K), g.finger(key), m) && i < |m|
    requires Rejected(t.keys, g.path(key, j), m, i, key)
    requires 0 <= g.path(key, j) + m[i] < |t.keys| && t.keys[g.path(key, j) + m[i]] == key
    ensures IsFirst(g, t, key, g.path(key, j) + m[i]) && g.rank(key, g.path(key, j) + m[i]) == j
  {
    hide GoodLayout, Matches, Fingerprinted, NotBefore, IsFirst, Loaded;
    var off := g.path(key, j);
    MaskSlot(g, t, off, g.finger(key), m, i);
    forall p | off <= p < off + m[i] && Live(t, p) ensures t.keys[p] != key {
      if t.keys[p] == key {
        InMask(g, t, key, off, m, p);
        RejectedSlot(t.keys, off, m, i, key, p);
      }
    }
    FoundIsFirst(g, t, key, j, off + m[i]);
  }

  lemma RejectedSlot<Key>(keys: seq<Key>, off: int, m: seq<int>, i: int, key: Key, p: int)
    requires Rejected(keys, off, m, i, key) && 0 <= i < |m| && p - off in m && p - off < m[i]
    requires forall x, y :: 0 <= x < y < |m| ==> m[x] < m[y]
    ensures 0 <= p < |keys| && keys[p] != key
  {
    var l :| 0 <= l < |m| && m[l] == p - off;
    assert l < i;
  }

  /** No matching slot compares equal: the bucket does not hold the key. */
  lemma MaskMiss<Key(!new), Val>(g: Layout<Key>, t: Table<Key, Val>, key: Key, j: int, m: seq<int>)
    requires GoodLayout(g) && Fits(g, t) && Fingerprinted(g, t) && 0 <= j < g.n && NotBefore(g, t, key, j)
    requires 0 <= g.path(key, j) && g.path(key, j) + g.K <= |t.states|
    requires Matches(Loaded(t.states, g.path(key, j), g.K), g.finger(key), m)
    requires Rejected(t.keys, g.path(key, j), m, |m|, key)
    ensures NotBefore(g, t, key, j + 1)
  {
    var off := g.path(key, j);
    var k := Loaded(t.states, off, g.K);
    forall p | off <= p < off + g.K && Live(t, p) ensures t.keys[p] != key {
      assert t.states[p] == k[p - off];
      assert k[p - off] == g.finger(key) ==> p - off in m;
    }
    BucketSearched(g, t, key, j);
  }

  /** A bucket without empty slots is not the one an empty slot lies in. */
  lemma NoEmptyGoOn<Key(!new), Val>(g: Layout<Key>, t: Table<Key, Val>, key: Key, j: int, e: int)
    requires GoodLayout(g) && Fits(g, t) && 0 <= j < g.n && EmptyAt(t, e)
    requires 0 <= g.path(key, j) && g.path(key, j) + g.K <= |t.states|
    requires EMPTY !in Loaded(t.states, g.path(key, j), g.K)
    ensures g.rank(key, e) != j
  {
    BucketRange(g, key, j);
    var off, k := g.path(key, j), Loaded(t.states, g.path(key, j), g.K);
    assert forall p :: off <= p < off + g.K ==> t.states[p] == k[p - off] != EMPTY;
  }

  lemma EmptyGivesStop<Key(!new), Val>(g: Layout<Key>, t: Table<Key, Val>, key: Key, j: int) returns (e: int)
    requires GoodLayout(g) && Fits(g, t) && 0 <= j < g.n
    requires 0 <= g.path(key, j) && g.path(key, j) + g.K <= |t.states|
    requires EMPTY in Loaded(t.states, g.path(key, j), g.K)
    ensures EmptyAt(t, e) && g.rank(key, e) == j
  {
    BucketRange(g, key, j);
    var off := g.path(key, j);
    var i :| 0 <= i < g.K && Loaded(t.states, off, g.K)[i] == EMPTY;
    e := off + i;
  }

  // ---------------------------------------------------------------- placing

  /** The first slot in `[q, end)` that holds no entry, or `end`. */
  function FreeFrom(states: seq<int>, q: int, end: int): (r: int)
    requires 0 <= q <= end <= |states|
    ensures q <= r <= end
    ensures r < end ==> !IsHash(states[r])
    ensures forall i :: q <= i < r ==> IsHash(states[i])
    decreases end - q
  {
    if q == end || !IsHash(states[q]) then q else FreeFrom(states, q + 1, end)
  }

  /** The first slot in `[q, end)` whose state is `s`, or `end`. */
  function StateFrom(states: seq<int>, s: int, q: int, end: int): (r: int)
    requires 0 <= q <= end <= |states|
    ensures q <= r <= end
    ensures r < end ==> states[r] == s
    ensures forall i :: q <= i < r ==> states[i] != s
    decreases end - q
  {
    if q == end || states[q] == s then q else StateFrom(states, s, q + 1, end)
  }

  /** The slot a new entry belongs in: the first one on the path of `key` that holds none. */
  ghost predicate FirstFreeSlot<Key, Val>(g: Layout<Key>, t: Table<Key, Val>, key: Key, q: int) {
    && 0 <= q < |t.states| && !IsHash(t.states[q])
    && (forall p :: 0 <= p < |t.states| && !IsHash(t.states[p]) ==>
          g.rank(key, q) < g.rank(key, p) || (g.rank(key, q) == g.rank(key, p) && q <= p))
  }

  lemma FirstFreeBounds<Key, Val>(g: Layout<Key>, t: Table<Key, Val>, key: Key, q: int)
    requires FirstFreeSlot(g, t, key, q)
    ensures 0 <= q < |t.states| && !Live(t, q)
  {
  }

  /** Every slot that `key` probes before step `j` holds an entry. */
  ghost predicate FullBefore<Key, Val>(g: Layout<Key>, t: Table<Key, Val>, key: Key, j: int) {
    forall p :: 0 <= p < |t.states| && g.rank(key, p) < j ==> IsHash(t.states[p])
  }

  lemma NothingFull<Key(!new), Val>(g: Layout<Key>, t: Table<Key, Val>, key: Key)
    requires GoodLayout(g) && Fits(g, t)
    ensures FullBefore(g, t, key, 0)
  {
  }

  lemma FreeFound<Key(!new), Val>(g: Layout<Key>, t: Table<Key, Val>, key: Key, j: int, i: int)
    requires GoodLayout(g) && Fits(g, t) && 0 <= j < g.n && FullBefore(g, t, key, j)
    requires 0 <= g.path(key, j) && g.path(key, j) + g.K <= |t.states|
    requires 0 <= i < g.K && !IsHash(t.states[g.path(key, j) + i])
    requires forall x :: 0 <= x < i ==> IsHash(Loaded(t.states, g.path(key, j), g.K)[x])
    ensures FirstFreeSlot(g, t, key, g.path(key, j) + i) && g.rank(key, g.path(key, j) + i) == j
  {
    BucketRange(g, key, j);
    var off := g.path(key, j);
    assert forall p :: off <= p < off + i ==> t.states[p] == Loaded(t.states, off, g.K)[p - off];
  }

  lemma BucketFull<Key(!new), Val>(g: Layout<Key>, t: Table<Key, Val>, key: Key, j: int)
    requires GoodLayout(g) && Fits(g, t) && 0 <= j < g.n && FullBefore(g, t, key, j)
    requires 0 <= g.path(key, j) && g.path(key, j) + g.K <= |t.states|
    requires forall x :: 0 <= x < g.K ==> IsHash(Loaded(t.states, g.path(key, j), g.K)[x])
    ensures FullBefore(g, t, key, j + 1)
  {
    BucketRange(g, key, j);
    var off := g.path(key, j);
    assert forall p :: off <= p < off + g.K ==> t.states[p] == Loaded(t.states, off, g.K)[p - off];
  }

  /** The first tombstone of a bucket is its first slot without an entry. */
  lemma TombstoneFound<Key(!new), Val>(g: Layout<Key>, t: Table<Key, Val>, key: Key, j: int, i: int)
    requires GoodLayout(g) && Fits(g, t) && Fingerprinted(g, t) && TombstonesCover(g, t)
    requires 0 <= j < g.n && FullBefore(g, t, key, j)
    requires 0 <= g.path(key, j) && g.path(key, j) + g.K <= |t.states|
    requires 0 <= i < g.K && Loaded(t.states, g.path(key, j), g.K)[i] == TOMBSTONE
    requires forall x :: 0 <= x < i ==> Loaded(t.states, g.path(key, j), g.K)[x] != TOMBSTONE
    ensures FirstFreeSlot(g, t, key, g.path(key, j) + i) && TombAt(t, g.path(key, j) + i)
  {
    BucketRange(g, key, j);
    var off, k := g.path(key, j), Loaded(t.states, g.path(key, j), g.K);
    assert TombAt(t, off + i);
    forall x | 0 <= x < i ensures IsHash(k[x]) {
      assert k[x] == t.states[off + x] && ValidState(t.states[off + x]);
      assert g.bucket[off + x] == g.bucket[off + i];
      assert !EmptyAt(t, off + x);
    }
    FreeFound(g, t, key, j, i);
  }

  /** A slot without an entry that is not a tombstone is empty. */
  lemma FreeIsEmpty<Key, Val>(g: Layout<Key>, t: Table<Key, Val>, off: int, i: int)
    requires Fits(g, t) && Fingerprinted(g, t) && 0 <= off && off + g.K <= |t.states| && 0 <= i < g.K
    requires !IsHash(Loaded(t.states, off, g.K)[i]) && Loaded(t.states, off, g.K)[i] != TOMBSTONE
    ensures t.states[off + i] == EMPTY
  {
    assert ValidState(t.states[off + i]);
  }

  lemma LoadedSize(states: seq<int>, off: int, K: nat)
    requires 0 <= off && off + K <= |states|
    ensures |Loaded(states, off, K)| == K
    ensures forall i :: 0 <= i < K ==> Loaded(states, off, K)[i] == states[off + i]
  {
  }

  lemma FreeInSlice(states: seq<int>, off: int, K: nat)
    requires 0 <= off && off + K <= |states|
    ensures FreeFrom(states, off, off + K) == off + FreeFrom(Loaded(states, off, K), 0, K)
  {
    var k, x := Loaded(states, off, K), FreeFrom(Loaded(states, off, K), 0, K);
    assert forall i :: 0 <= i < K ==> k[i] == states[off + i];
    assert forall i :: off <= i < off + x ==> states[i] == k[i - off];
  }

  lemma LoadedHasEmpty<Key(!new), Val>(g: Layout<Key>, t: Table<Key, Val>, b: int)
    requires GoodLayout(g) && Fits(g, t) && 0 <= b < |g.bucket| && g.bucket[b] == b
    ensures 0 <= b && b + g.K <= |t.states|
    ensures EMPTY in Loaded(t.states, b, g.K) <==> HasEmpty(g, t, b)
    ensures forall y :: 0 <= y < g.K ==> Loaded(t.states, b, g.K)[y] == t.states[b + y] && g.bucket[b + y] == b
    ensures |Loaded(t.states, b, g.K)| == g.K
  {
    var k := Loaded(t.states, b, g.K);
    if EMPTY in k {
      var x :| 0 <= x < |k| && k[x] == EMPTY;
      assert EmptyAt(t, b + x) && g.bucket[b + x] == b;
    }
    if e :| EmptyAt(t, e) && g.bucket[e] == b {
      assert k[e - b] == EMPTY;
    }
  }

  lemma NoTombstoneLoaded<Key, Val>(t: Table<Key, Val>, off: int, K: nat, i: nat)
    requires Count(t.states, TOMBSTONE) == 0 && 0 <= off && off + K <= |t.states| && i < K
    ensures Loaded(t.states, off, K)[i] != TOMBSTONE
  {
    assert t.states[off + i] in multiset(t.states);
  }

  lemma TombstoneNoEmpty<Key(!new), Val>(g: Layout<Key>, t: Table<Key, Val>, key: Key, j: int, i: int)
    requires GoodLayout(g) && Fits(g, t) && TombstonesCover(g, t) && 0 <= j < g.n
    requires 0 <= g.path(key, j) && g.path(key, j) + g.K <= |t.states|
    requires 0 <= i < g.K && Loaded(t.states, g.path(key, j), g.K)[i] == TOMBSTONE
    ensures EMPTY !in Loaded(t.states, g.path(key, j), g.K)
  {
    BucketRange(g, key, j);
    var off, k := g.path(key, j), Loaded(t.states, g.path(key, j), g.K);
    assert TombAt(t, off + i);
    forall x | 0 <= x < |k| ensures k[x] != EMPTY {
      assert g.bucket[off + x] == g.bucket[off + i];
      assert !EmptyAt(t, off + x);
    }
  }

  /** A bucket full of entries is not the one an empty slot lies in. */
  lemma FullGoesOn<Key(!new), Val>(g: Layout<Key>, t: Table<Key, Val>, key: Key, j: int, e: int)
    requires GoodLayout(g) && Fits(g, t) && FullBefore(g, t, key, j + 1) && EmptyAt(t, e)
    ensures g.rank(key, e) > j
  {
  }

  /** A search that reached an empty slot in step `j` has seen every slot that could hold the key. */
  lemma EmptyMeansAbsent<Key(!new), Val>(g: Layout<Key>, t: Table<Key, Val>, dup: bool, key: Key, e: int, j: int)
    requires GoodLayout(g) && Inv(g, t, dup) && EmptyAt(t, e) && g.rank(key, e) == j
    requires !dup ==> NotBefore(g, t, key, j + 1)
    ensures !dup ==> !Holds(t, key)
  {
    if !dup { EmptyEndsSearch(g, t, dup, key, e); }
  }

  lemma FreeState<Key, Val>(g: Layout<Key>, t: Table<Key, Val>, q: int)
    requires Fits(g, t) && Fingerprinted(g, t) && 0 <= q < |t.states| && !Live(t, q)
    ensures t.states[q] == EMPTY || t.states[q] == TOMBSTONE
  {
    assert ValidState(t.states[q]);
  }

  lemma StoreIsLive<Key(!new), Val>(g: Layout<Key>, t: Table<Key, Val>, q: int, key: Key, val: Val)
    requires GoodLayout(g) && Fits(g, t) && 0 <= q < |t.states|
    ensures Live(Store(g, t, q, key, val), q)
  {
    assert 0 <= g.finger(key);
  }

  lemma FirstIsHeld<Key, Val>(g: Layout<Key>, t: Table<Key, Val>, key: Key, q: int)
    requires |t.states| == |t.keys| && IsFirst(g, t, key, q)
    ensures Holds(t, key) && Live(t, q) && t.keys[q] == key
  {
  }

  /** Filling the first free slot on a key's path keeps the invariant. */
  lemma PlaceKeeps<Key(!new), Val>(g: Layout<Key>, t: Table<Key, Val>, dup: bool, q: int, key: Key, val: Val)
    requires GoodLayout(g) && Inv(g, t, dup) && FirstFreeSlot(g, t, key, q)
    requires !dup ==> !Holds(t, key)
    ensures Inv(g, Store(g, t, q, key, val), dup)
    ensures Bag(Store(g, t, q, key, val)) == Bag(t) + multiset{Some((key, val))}
  {
    if !dup {
      forall p | Live(t, p) ensures t.keys[p] != key { assert !Holds(t, key); }
    }
    StoreKeeps(g, t, dup, q, key, val);
  }

  lemma CountStore<Key(!new), Val>(g: Layout<Key>, t: Table<Key, Val>, q: int, key: Key)
    requires GoodLayout(g) && 0 <= q < |t.states| && (t.states[q] == EMPTY || t.states[q] == TOMBSTONE)
    ensures var s := t.states[q := g.finger(key)];
      if t.states[q] == EMPTY
      then Count(s, EMPTY) == Count(t.states, EMPTY) - 1 && Count(s, TOMBSTONE) == Count(t.states, TOMBSTONE)
      else Count(s, EMPTY) == Count(t.states, EMPTY) && Count(s, TOMBSTONE) == Count(t.states, TOMBSTONE) - 1
  {
    CountUpdate(t.states, q, g.finger(key));
    assert 0 <= g.finger(key);
  }

  /** Everything an insertion needs to know about the slot it fills. */
  lemma PlaceFacts<Key(!new), Val>(g: Layout<Key>, t: Table<Key, Val>, dup: bool, q: int, key: Key)
    requires GoodLayout(g) && Inv(g, t, dup) && FirstFreeSlot(g, t, key, q)
    requires !dup ==> !Holds(t, key)
    ensures 0 <= q < |t.states|
    ensures var u := Store(g, t, q, key, t.vals[q]);
      && Inv(g, u, dup) && Live(u, q) && Bag(u) == Bag(t) + multiset{Some((key, t.vals[q]))}
      && Count(u.states, EMPTY) == Count(t.states, EMPTY) - (if EmptyAt(t, q) then 1 else 0)
      && Count(u.states, TOMBSTONE) == Count(t.states, TOMBSTONE) - (if EmptyAt(t, q) then 0 else 1)
  {
    hide Bag, Count, Holds, GoodLayout;
    PlaceKeeps(g, t, dup, q, key, t.vals[q]);
    FreeState(g, t, q);
    CountStore(g, t, q, key);
    StoreIsLive(g, t, q, key, t.vals[q]);
  }
}
