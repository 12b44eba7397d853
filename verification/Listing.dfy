/** Enumerating the positions of one key along its probe path. */
module Listing {
  import opened Slots
  import opened Probing
  import opened Pow2

  /** Slot `p` comes before slot `q` when `key` is probed. */
  ghost predicate Earlier<Key>(g: Layout<Key>, key: Key, p: int, q: int) {
    g.rank(key, p) < g.rank(key, q) || (g.rank(key, p) == g.rank(key, q) && p < q)
  }

  ghost predicate InOrder<Key>(g: Layout<Key>, key: Key, found: seq<int>) {
    forall i, l :: 0 <= i < l < |found| ==> Earlier(g, key, found[i], found[l])
  }

  /** `found` lists, in probe order, the positions of `key` in the first `j` buckets of its path. */
  ghost predicate Listed<Key, Val>(g: Layout<Key>, t: Table<Key, Val>, key: Key, found: seq<int>, j: int)
    requires |t.states| == |t.keys|
  {
    && InOrder(g, key, found)
    && (forall p :: p in found <==> Live(t, p) && t.keys[p] == key && g.rank(key, p) < j)
  }

  /** The slots of `m` that hold `key`, in the order of `m`. */
  function Hits<Key(==)>(keys: seq<Key>, off: int, m: seq<int>, key: Key): (r: seq<int>)
  {
    if m == [] then []
    else
      var rest, p := Hits(keys, off, m[..|m| - 1], key), off + m[|m| - 1];
      if 0 <= p < |keys| && keys[p] == key then rest + [p] else rest
  }

  lemma HitsStep<Key>(keys: seq<Key>, off: int, m: seq<int>, i: nat, key: Key)
    requires i < |m| && 0 <= off + m[i] < |keys|
    ensures Hits(keys, off, m[..i + 1], key)
            == Hits(keys, off, m[..i], key) + if keys[off + m[i]] == key then [off + m[i]] else []
  {
    assert m[..i + 1][..i] == m[..i];
  }

  predicate Increasing(m: seq<int>) {
    forall i, l :: 0 <= i < l < |m| ==> m[i] < m[l]
  }

  lemma {:induction false} HitsMembers<Key>(keys: seq<Key>, off: int, m: seq<int>, key: Key, p: int)
    ensures p in Hits(keys, off, m, key) <==> p - off in m && 0 <= p < |keys| && keys[p] == key
  {
    if m != [] {
      HitsMembers(keys, off, m[..|m| - 1], key, p);
      assert m == m[..|m| - 1] + [m[|m| - 1]];
    }
  }

  lemma {:induction false} HitsIncreasing<Key>(keys: seq<Key>, off: int, m: seq<int>, key: Key)
    requires Increasing(m)
    ensures Increasing(Hits(keys, off, m, key))
  {
    if m != [] {
      var n, rest := m[..|m| - 1], Hits(keys, off, m[..|m| - 1], key);
      HitsIncreasing(keys, off, n, key);
      forall i | 0 <= i < |rest| ensures rest[i] < off + m[|m| - 1] {
        HitsMembers(keys, off, n, key, rest[i]);
        var l :| 0 <= l < |n| && n[l] == rest[i] - off;
        assert m[l] == n[l];
      }
    }
  }

  lemma ListStart<Key(!new), Val>(g: Layout<Key>, t: Table<Key, Val>, key: Key)
    requires GoodLayout(g) && Fits(g, t)
    ensures Listed(g, t, key, [], 0)
  {
  }

  lemma BucketHit<Key(!new), Val>(g: Layout<Key>, t: Table<Key, Val>, key: Key, j: int, m: seq<int>, p: int)
    requires GoodLayout(g) && Fits(g, t) && Fingerprinted(g, t) && 0 <= j < g.n
    requires 0 <= g.path(key, j) && g.path(key, j) + g.K <= |t.states|
    requires Matches(Loaded(t.states, g.path(key, j), g.K), g.finger(key), m)
    ensures p - g.path(key, j) in m && 0 <= p < |t.keys| && t.keys[p] == key <==>
              Live(t, p) && t.keys[p] == key && g.rank(key, p) == j
  {
    hide GoodLayout;
    var b, k := g.path(key, j), Loaded(t.states, g.path(key, j), g.K);
    BucketRange(g, key, j);
    LoadedSize(t.states, b, g.K);
    if p - b in m {
      assert IsHash(k[p - b]) && k[p - b] == t.states[p];
    } else if b <= p < b + g.K {
      assert k[p - b] == t.states[p] && k[p - b] != g.finger(key);
    }
  }

  /** The hits of one bucket are the positions of the key in it. */
  lemma BucketHits<Key(!new), Val>(g: Layout<Key>, t: Table<Key, Val>, key: Key, j: int, m: seq<int>)
    requires GoodLayout(g) && Fits(g, t) && Fingerprinted(g, t) && 0 <= j < g.n
    requires 0 <= g.path(key, j) && g.path(key, j) + g.K <= |t.states|
    requires Matches(Loaded(t.states, g.path(key, j), g.K), g.finger(key), m)
    ensures forall p :: p in Hits(t.keys, g.path(key, j), m, key) <==>
              Live(t, p) && t.keys[p] == key && g.rank(key, p) == j
    ensures Increasing(Hits(t.keys, g.path(key, j), m, key))
  {
    hide GoodLayout, Hits, Loaded, Fingerprinted;
    var b := g.path(key, j);
    HitsIncreasing(t.keys, b, m, key);
    forall p ensures p in Hits(t.keys, b, m, key) <==> Live(t, p) && t.keys[p] == key && g.rank(key, p) == j {
      HitsMembers(t.keys, b, m, key, p);
      BucketHit(g, t, key, j, m, p);
    }
  }

  lemma ListBucket<Key(!new), Val>(g: Layout<Key>, t: Table<Key, Val>, key: Key, before: seq<int>, j: int, m: seq<int>)
    requires GoodLayout(g) && Fits(g, t) && Fingerprinted(g, t) && 0 <= j < g.n && Listed(g, t, key, before, j)
    requires 0 <= g.path(key, j) && g.path(key, j) + g.K <= |t.states|
    requires Matches(Loaded(t.states, g.path(key, j), g.K), g.finger(key), m)
    ensures Listed(g, t, key, before + Hits(t.keys, g.path(key, j), m, key), j + 1)
  {
    hide GoodLayout, Fingerprinted, Matches, Hits, Loaded;
    var h := Hits(t.keys, g.path(key, j), m, key);
    BucketHits(g, t, key, j, m);
    var found := before + h;
    forall i, l | 0 <= i < l < |found| ensures Earlier(g, key, found[i], found[l]) {
      if l < |before| {
        assert found[i] == before[i] && found[l] == before[l];
      } else if i >= |before| {
        assert found[i] == h[i - |before|] && found[l] == h[l - |before|];
        assert h[i - |before|] in h && h[l - |before|] in h;
      } else {
        assert found[i] == before[i] && before[i] in before;
        assert found[l] == h[l - |before|] && h[l - |before|] in h;
      }
    }
  }

  lemma ListDone<Key(!new), Val>(g: Layout<Key>, t: Table<Key, Val>, dup: bool, key: Key, found: seq<int>, e: int)
    requires GoodLayout(g) && Inv(g, t, dup) && EmptyAt(t, e) && Listed(g, t, key, found, g.rank(key, e) + 1)
    ensures forall p :: p in found <==> Live(t, p) && t.keys[p] == key
    ensures InOrder(g, key, found)
  {
  }

  lemma OnlyHit<Key(!new), Val>(g: Layout<Key>, t: Table<Key, Val>, key: Key, at: int)
    requires Inv(g, t, false) && Live(t, at) && t.keys[at] == key
    ensures forall p :: Live(t, p) && t.keys[p] == key ==> p == at
  {
  }

  lemma ListedAt<Key, Val>(g: Layout<Key>, t: Table<Key, Val>, key: Key, found: seq<int>, j: int, i: int)
    requires |t.states| == |t.keys| && Listed(g, t, key, found, j) && 0 <= i < |found|
    ensures Live(t, found[i]) && t.keys[found[i]] == key && g.rank(key, found[i]) < j
  {
    assert found[i] in found;
  }

  lemma NoneListed<Key, Val>(g: Layout<Key>, t: Table<Key, Val>, key: Key, before: seq<int>, j: int, at: int)
    requires |t.states| == |t.keys| && Listed(g, t, key, before, j) && g.rank(key, at) == j
    requires forall p :: Live(t, p) && t.keys[p] == key ==> p == at
    ensures before == []
  {
    if |before| > 0 { ListedAt(g, t, key, before, j, 0); }
  }

  /** Without duplicates the first hit is the only one. */
  lemma ListOnly<Key(!new), Val>(g: Layout<Key>, t: Table<Key, Val>, key: Key, before: seq<int>, j: int, m: seq<int>,
                                 at: int)
    requires GoodLayout(g) && Inv(g, t, false) && Fingerprinted(g, t) && 0 <= j < g.n && Listed(g, t, key, before, j)
    requires 0 <= g.path(key, j) && g.path(key, j) + g.K <= |t.states|
    requires Matches(Loaded(t.states, g.path(key, j), g.K), g.finger(key), m)
    requires at - g.path(key, j) in m && 0 <= at < |t.keys| && t.keys[at] == key
    ensures forall p :: p in before + [at] <==> Live(t, p) && t.keys[p] == key
    ensures before + [at] == [at]
  {
    hide GoodLayout, Fingerprinted, Loaded, Matches, Reachable, TombstonesCover, UniqueKeys;
    BucketHit(g, t, key, j, m, at);
    OnlyHit(g, t, key, at);
    NoneListed(g, t, key, before, j, at);
    assert before + [at] == [at];
  }

  // ---------------------------------------------------------------- from one position to the next

  /** `q` is the position of `key` that follows `p` in probe order. */
  ghost predicate IsNext<Key, Val>(g: Layout<Key>, t: Table<Key, Val>, key: Key, p: int, q: int)
    requires |t.states| == |t.keys|
  {
    && Live(t, q) && t.keys[q] == key && Earlier(g, key, p, q)
    && (forall x :: Live(t, x) && t.keys[x] == key && Earlier(g, key, p, x) ==> x == q || Earlier(g, key, q, x))
  }

  ghost predicate IsLast<Key, Val>(g: Layout<Key>, t: Table<Key, Val>, key: Key, p: int)
    requires |t.states| == |t.keys|
  {
    forall x :: Live(t, x) && t.keys[x] == key ==> !Earlier(g, key, p, x)
  }

  /** Positions of `key` after `p` are not before step `j`. */
  ghost predicate NoneBetween<Key, Val>(g: Layout<Key>, t: Table<Key, Val>, key: Key, p: int, j: int)
    requires |t.states| == |t.keys|
  {
    forall x :: Live(t, x) && t.keys[x] == key && Earlier(g, key, p, x) ==> g.rank(key, x) >= j
  }

  /** The search for the successor of `p` has to look at the slots above `idx` in step `j`. */
  ghost predicate Resume<Key, Val>(g: Layout<Key>, t: Table<Key, Val>, key: Key, p: int, j: int, idx: int)
    requires |t.states| == |t.keys|
  {
    || (j == g.rank(key, p) && g.path(key, j) + idx == p)
    || (j > g.rank(key, p) && idx == -1 && NoneBetween(g, t, key, p, j))
  }

  /** `above`: the slots of a mask that lie above `idx`. */
  function Above(m: seq<int>, idx: int): (r: seq<int>)
    ensures forall x :: x in r ==> x in m
  {
    if m == [] then [] else if m[0] > idx then m else Above(m[1..], idx)
  }

  lemma {:induction false} AboveKeeps(m: seq<int>, idx: int)
    requires Increasing(m)
    ensures Increasing(Above(m, idx))
    ensures forall x :: x in Above(m, idx) <==> x in m && x > idx
  {
    if m != [] && m[0] <= idx {
      AboveKeeps(m[1..], idx);
      assert m == [m[0]] + m[1..];
    } else {
      forall x | x in m ensures x > idx {
        var i :| 0 <= i < |m| && m[i] == x;
        assert i > 0 ==> m[0] < m[i];
      }
    }
  }

  lemma RejectedBelow<Key>(keys: seq<Key>, off: int, m: seq<int>, i: int, key: Key, l: int)
    requires Rejected(keys, off, m, i, key) && 0 <= l < |m| && 0 <= off + m[l] < |keys| && keys[off + m[l]] == key
    ensures l >= i
  {
  }

  lemma RejectedNotIn<Key>(keys: seq<Key>, off: int, m: seq<int>, key: Key, x: int)
    requires Rejected(keys, off, m, |m|, key) && 0 <= x < |keys| && keys[x] == key
    ensures x - off !in m
  {
  }

  lemma AboveBounds(m: seq<int>, idx: int, lo: int, hi: int)
    requires forall l :: 0 <= l < |m| ==> lo <= m[l] < hi
    ensures forall l :: 0 <= l < |Above(m, idx)| ==> lo <= Above(m, idx)[l] < hi
  {
    forall l | 0 <= l < |Above(m, idx)| ensures lo <= Above(m, idx)[l] < hi { assert Above(m, idx)[l] in m; }
  }

  lemma NextHit<Key(!new), Val>(g: Layout<Key>, t: Table<Key, Val>, key: Key, p: int, j: int, idx: int, m: seq<int>,
                                i: int)
    requires GoodLayout(g) && Fits(g, t) && Fingerprinted(g, t) && 0 <= j < g.n && Resume(g, t, key, p, j, idx)
    requires 0 <= g.path(key, j) && g.path(key, j) + g.K <= |t.states|
    requires Matches(Loaded(t.states, g.path(key, j), g.K), g.finger(key), m) && Increasing(m)
    requires 0 <= i < |Above(m, idx)| && Rejected(t.keys, g.path(key, j), Above(m, idx), i, key)
    requires 0 <= g.path(key, j) + Above(m, idx)[i] < |t.keys| && t.keys[g.path(key, j) + Above(m, idx)[i]] == key
    ensures IsNext(g, t, key, p, g.path(key, j) + Above(m, idx)[i])
            && g.rank(key, g.path(key, j) + Above(m, idx)[i]) == j
  {
    hide GoodLayout, Fingerprinted, Loaded, Matches, Above;
    var off, a := g.path(key, j), Above(m, idx);
    var q := off + a[i];
    AboveKeeps(m, idx);
    BucketRange(g, key, j);
    assert a[i] in a;
    BucketHit(g, t, key, j, m, q);
    forall x | Live(t, x) && t.keys[x] == key && Earlier(g, key, p, x) ensures x == q || Earlier(g, key, q, x) {
      if g.rank(key, x) == j {
        BucketHit(g, t, key, j, m, x);
        var l :| 0 <= l < |a| && a[l] == x - off;
        RejectedBelow(t.keys, off, a, i, key, l);
      }
    }
  }

  lemma NextMiss<Key(!new), Val>(g: Layout<Key>, t: Table<Key, Val>, key: Key, p: int, j: int, idx: int, m: seq<int>)
    requires GoodLayout(g) && Fits(g, t) && Fingerprinted(g, t) && 0 <= j < g.n && Resume(g, t, key, p, j, idx)
    requires 0 <= g.path(key, j) && g.path(key, j) + g.K <= |t.states|
    requires Matches(Loaded(t.states, g.path(key, j), g.K), g.finger(key), m) && Increasing(m)
    requires Rejected(t.keys, g.path(key, j), Above(m, idx), |Above(m, idx)|, key)
    ensures NoneBetween(g, t, key, p, j + 1) && j + 1 > g.rank(key, p)
  {
    hide GoodLayout, Fingerprinted, Loaded, Matches, Above;
    var off, a := g.path(key, j), Above(m, idx);
    AboveKeeps(m, idx);
    BucketRange(g, key, j);
    forall x | Live(t, x) && t.keys[x] == key && Earlier(g, key, p, x) ensures g.rank(key, x) >= j + 1 {
      BucketHit(g, t, key, j, m, x);
      RejectedNotIn(t.keys, off, a, key, x);
    }
  }

  lemma NextDone<Key(!new), Val>(g: Layout<Key>, t: Table<Key, Val>, dup: bool, key: Key, p: int, e: int)
    requires GoodLayout(g) && Inv(g, t, dup) && EmptyAt(t, e) && NoneBetween(g, t, key, p, g.rank(key, e) + 1)
    ensures IsLast(g, t, key, p)
  {
  }

  lemma OnlyIsLast<Key(!new), Val>(g: Layout<Key>, t: Table<Key, Val>, key: Key, p: int)
    requires Inv(g, t, false) && Live(t, p) && t.keys[p] == key
    ensures IsLast(g, t, key, p)
  {
  }

  // ---------------------------------------------------------------- the skipped test

  /** The successor search of `find_next_` moves on from the last slot of a bucket without
      asking whether the bucket has an empty slot.  It then needs another one to stop at. */
  ghost predicate RunsAway<Key, Val>(g: Layout<Key>, t: Table<Key, Val>, p: int)
  {
    && Fits(g, t) && 0 <= p < |t.states|
    && p == g.bucket[p] + g.K - 1 && HasEmpty(g, t, g.bucket[p])
    && (forall e :: EmptyAt(t, e) ==> g.bucket[e] == g.bucket[p])
  }

  lemma {:induction false} EmptiesWithin(states: seq<int>, lo: nat, hi: nat)
    requires lo <= hi <= |states| && forall e :: 0 <= e < |states| && states[e] == EMPTY ==> lo <= e < hi
    ensures Count(states, EMPTY) <= hi - lo
    decreases hi
  {
    if lo < hi {
      CountUpdate(states, hi - 1, TOMBSTONE);
      EmptiesWithin(states[hi - 1 := TOMBSTONE], lo, hi - 1);
    } else {
      assert EMPTY !in states;
    }
  }

  /** It takes a table with no more empty slots than one bucket has; fewer if `p` holds an entry. */
  lemma RunawayHasFewEmpties<Key(!new), Val>(g: Layout<Key>, t: Table<Key, Val>, p: int)
    requires GoodLayout(g) && RunsAway(g, t, p)
    ensures Count(t.states, EMPTY) <= g.K - (if Live(t, p) then 1 else 0)
  {
    var b := g.bucket[p];
    forall e | EmptyAt(t, e) ensures b <= e < b + g.K && (Live(t, p) ==> e != p) { assert g.bucket[e] == b; }
    assert forall e :: 0 <= e < |t.states| && t.states[e] == EMPTY ==> EmptyAt(t, e);
    EmptiesWithin(t.states, b, if Live(t, p) then p else p + 1);
  }

  /** A search for `key` that has come to slot `p` passed no bucket with an empty slot. */
  ghost predicate Reached<Key, Val>(g: Layout<Key>, t: Table<Key, Val>, key: Key, p: int) {
    0 <= p < |t.states| && forall e :: EmptyAt(t, e) ==> g.rank(key, p) <= g.rank(key, e)
  }

  lemma LiveIsReached<Key, Val>(g: Layout<Key>, t: Table<Key, Val>, dup: bool, key: Key, p: int)
    requires Inv(g, t, dup) && Live(t, p) && t.keys[p] == key
    ensures Reached(g, t, key, p)
  {
  }

  /** Erasing the entry does not change that; so erasing can go on from where it stopped. */
  lemma ErasedIsReached<Key(!new), Val>(g: Layout<Key>, t: Table<Key, Val>, dup: bool, key: Key, p: int)
    requires GoodLayout(g) && Inv(g, t, dup) && Live(t, p) && t.keys[p] == key
    ensures Fits(g, t) && Reached(g, Vacate(g, t, p), key, p)
  {
    hide GoodLayout, TombstonesCover, UniqueKeys, Fingerprinted;
    var u := Vacate(g, t, p);
    forall e | EmptyAt(u, e) ensures g.rank(key, p) <= g.rank(key, e) {
      if e != p { assert EmptyAt(t, e); }
    }
  }

  lemma ReachedBounds<Key, Val>(g: Layout<Key>, t: Table<Key, Val>, key: Key, p: int)
    requires Reached(g, t, key, p)
    ensures 0 <= p < |t.states|
  {
  }

  lemma NextIsLive<Key, Val>(g: Layout<Key>, t: Table<Key, Val>, key: Key, p: int, q: int)
    requires |t.states| == |t.keys| && IsNext(g, t, key, p, q)
    ensures Live(t, q) && t.keys[q] == key
  {
  }

  /** Otherwise there is an empty slot ahead. */
  lemma StopAhead<Key(!new), Val>(g: Layout<Key>, t: Table<Key, Val>, dup: bool, key: Key, p: int, e0: int)
                                  returns (e: int)
    requires GoodLayout(g) && Inv(g, t, dup) && EmptyAt(t, e0) && Reached(g, t, key, p) && !RunsAway(g, t, p)
    ensures EmptyAt(t, e) && g.rank(key, e) >= g.rank(key, p) + (if p == g.bucket[p] + g.K - 1 then 1 else 0)
  {
    e := e0;
    if p == g.bucket[p] + g.K - 1 && g.bucket[e] == g.bucket[p] {
      assert HasEmpty(g, t, g.bucket[p]);
      e :| EmptyAt(t, e) && g.bucket[e] != g.bucket[p];
    }
    if g.bucket[e] != g.bucket[p] {
      assert g.path(key, g.rank(key, e)) != g.path(key, g.rank(key, p));
    }
  }

  /** No bucket ahead has an empty slot, nor does any hold the key. */
  lemma NothingAhead<Key(!new), Val>(g: Layout<Key>, t: Table<Key, Val>, dup: bool, key: Key, p: int)
    requires GoodLayout(g) && Inv(g, t, dup) && Reached(g, t, key, p) && RunsAway(g, t, p)
    ensures forall e :: EmptyAt(t, e) ==> g.rank(key, e) == g.rank(key, p)
    ensures IsLast(g, t, key, p) && p == g.bucket[p] + g.K - 1
  {
    hide TombstonesCover, UniqueKeys, Fingerprinted;
    forall e | EmptyAt(t, e) ensures g.rank(key, e) == g.rank(key, p) { SameBucketSameRank(g, key, e, p); }
    var e :| EmptyAt(t, e) && g.bucket[e] == g.bucket[p];
    forall x | Live(t, x) && t.keys[x] == key ensures !Earlier(g, key, p, x) {
      assert g.rank(key, x) <= g.rank(key, e);
      BucketRange(g, key, g.rank(key, p));
    }
  }

  lemma ResumeInBucket<Key(!new), Val>(g: Layout<Key>, t: Table<Key, Val>, key: Key, p: int)
    requires GoodLayout(g) && Fits(g, t) && 0 <= p < |t.states|
    ensures Resume(g, t, key, p, g.rank(key, p), p - g.bucket[p])
  {
  }

  lemma ResumeNextBucket<Key(!new), Val>(g: Layout<Key>, t: Table<Key, Val>, key: Key, p: int)
    requires GoodLayout(g) && Fits(g, t) && 0 <= p < |t.states| && p == g.bucket[p] + g.K - 1
    ensures Resume(g, t, key, p, g.rank(key, p) + 1, -1)
  {
    BucketRange(g, key, g.rank(key, p));
  }

  lemma NextIsNotLast<Key, Val>(g: Layout<Key>, t: Table<Key, Val>, key: Key, p: int, q: int)
    requires |t.states| == |t.keys| && IsNext(g, t, key, p, q)
    ensures !IsLast(g, t, key, p)
  {
  }

  lemma ResumeFurther<Key, Val>(g: Layout<Key>, t: Table<Key, Val>, key: Key, p: int, j: int)
    requires |t.states| == |t.keys| && NoneBetween(g, t, key, p, j) && j > g.rank(key, p)
    ensures Resume(g, t, key, p, j, -1)
  {
  }

  lemma MatchesIncrease(k: seq<int>, s: int, m: seq<int>)
    requires Matches(k, s, m)
    ensures Increasing(m)
  {
  }

  /** The assertion that a probe length stays below the capacity holds for one cycle. */
  lemma PslInRange(j: nat, K: nat, n: nat)
    requires K > 0 && j <= n
    ensures j * K < K * n <==> j < n
  {
    if j < n {
      AtLeastOnce(K, n - j);
      assert K * (n - j) == K * n - j * K;
    }
  }

  // ---------------------------------------------------------------- the chain

  /** `found` lists the positions of `key` up to its last element. */
  ghost predicate Chained<Key, Val>(g: Layout<Key>, t: Table<Key, Val>, key: Key, found: seq<int>)
    requires |t.states| == |t.keys|
  {
    && InOrder(g, key, found)
    && (forall i :: 0 <= i < |found| ==> Live(t, found[i]) && t.keys[found[i]] == key)
    && (forall p :: Live(t, p) && t.keys[p] == key && p !in found ==>
      |found| > 0 && Earlier(g, key, found[|found| - 1], p))
  }

  lemma ChainNone<Key, Val>(t: Table<Key, Val>, key: Key)
    requires |t.states| == |t.keys| && !Holds(t, key)
    ensures forall p :: Live(t, p) ==> t.keys[p] != key
  {
  }

  lemma ChainFirst<Key, Val>(g: Layout<Key>, t: Table<Key, Val>, key: Key, p: int)
    requires |t.states| == |t.keys| && IsFirst(g, t, key, p)
    ensures Chained(g, t, key, [p])
  {
  }

  lemma ChainStep<Key, Val>(g: Layout<Key>, t: Table<Key, Val>, key: Key, found: seq<int>, q: int)
    requires |t.states| == |t.keys| && Chained(g, t, key, found) && |found| > 0
             && IsNext(g, t, key, found[|found| - 1], q)
    ensures Chained(g, t, key, found + [q]) && Live(t, q) && t.keys[q] == key
  {
    var more := found + [q];
    forall p | Live(t, p) && t.keys[p] == key && p !in more ensures Earlier(g, key, q, p) {
      assert p !in found && p != q;
    }
  }

  lemma ChainDone<Key, Val>(g: Layout<Key>, t: Table<Key, Val>, key: Key, found: seq<int>)
    requires |t.states| == |t.keys| && Chained(g, t, key, found) && |found| > 0 && IsLast(g, t, key, found[|found| - 1])
    ensures InOrder(g, key, found)
    ensures forall p :: p in found <==> Live(t, p) && t.keys[p] == key
  {
  }

  lemma ChainLists<Key, Val>(g: Layout<Key>, t: Table<Key, Val>, key: Key, found: seq<int>)
    requires |t.states| == |t.keys| && Chained(g, t, key, found)
    ensures InOrder(g, key, found) && forall p :: p in found ==> Live(t, p) && t.keys[p] == key
  {
  }

  /** A chain never comes back to a slot, so it ends. */
  lemma ChainShort<Key, Val>(g: Layout<Key>, t: Table<Key, Val>, key: Key, found: seq<int>)
    requires |t.states| == |t.keys| && Chained(g, t, key, found)
    ensures |found| <= |t.states|
  {
    var image := set i | 0 <= i < |found| :: found[i];
    DistinctImage(found, |found|);
    assert image <= Below(|t.states|) by {
      forall p | p in image ensures p in Below(|t.states|) {}
    }
    SubsetSize(image, Below(|t.states|));
  }

  lemma {:induction false} DistinctImage(found: seq<int>, n: nat)
    requires n <= |found| && forall i, l :: 0 <= i < l < |found| ==> found[i] != found[l]
    ensures |set i | 0 <= i < n :: found[i]| == n
  {
    if n > 0 {
      DistinctImage(found, n - 1);
      var before := set i | 0 <= i < n - 1 :: found[i];
      assert found[n - 1] !in before;
      assert (set i | 0 <= i < n :: found[i]) == before + {found[n - 1]};
    }
  }

  lemma SubsetSize(a: set<int>, b: set<int>)
    requires a <= b
    ensures |a| <= |b|
  {
    assert |b| == |a| + |b - a|;
  }

  // ---------------------------------------------------------------- one list

  lemma TailMembers<Key>(g: Layout<Key>, key: Key, a: seq<int>, p: int)
    requires InOrder(g, key, a) && |a| > 0
    ensures p in a[1..] <==> p in a && p != a[0]
  {
    assert a == [a[0]] + a[1..];
    if p in a[1..] {
      var i :| 0 <= i < |a[1..]| && a[1..][i] == p;
      assert Earlier(g, key, a[0], a[i + 1]);
    }
  }

  ghost predicate SameMembers(a: seq<int>, b: seq<int>) {
    (forall i :: 0 <= i < |a| ==> a[i] in b) && (forall i :: 0 <= i < |b| ==> b[i] in a)
  }

  lemma MemberOf(a: seq<int>, b: seq<int>, i: int)
    requires SameMembers(a, b) && 0 <= i < |a|
    ensures |b| > 0 && a[i] in b
  {
  }

  lemma SameHead<Key>(g: Layout<Key>, key: Key, a: seq<int>, b: seq<int>)
    requires InOrder(g, key, a) && InOrder(g, key, b) && |a| > 0 && |b| > 0 && SameMembers(a, b)
    ensures a[0] == b[0]
  {
    var i :| 0 <= i < |b| && b[i] == a[0];
    var j :| 0 <= j < |a| && a[j] == b[0];
    assert i > 0 ==> Earlier(g, key, b[0], b[i]);
    assert j > 0 ==> Earlier(g, key, a[0], a[j]);
  }

  lemma SameTail<Key>(g: Layout<Key>, key: Key, a: seq<int>, b: seq<int>)
    requires InOrder(g, key, a) && InOrder(g, key, b) && |a| > 0 && |b| > 0 && SameMembers(a, b) && a[0] == b[0]
    ensures SameMembers(a[1..], b[1..]) && InOrder(g, key, a[1..]) && InOrder(g, key, b[1..])
  {
    forall i | 0 <= i < |a[1..]| ensures a[1..][i] in b[1..] {
      assert a[1..][i] == a[i + 1] && a[i + 1] in a[1..];
      assert a[i + 1] in b;
      TailMembers(g, key, a, a[i + 1]);
      TailMembers(g, key, b, a[i + 1]);
    }
    forall i | 0 <= i < |b[1..]| ensures b[1..][i] in a[1..] {
      assert b[1..][i] == b[i + 1] && b[i + 1] in b[1..];
      assert b[i + 1] in a;
      TailMembers(g, key, a, b[i + 1]);
      TailMembers(g, key, b, b[i + 1]);
    }
  }

  /** There is only one list of a key's positions in probe order; so following the chain gives
      what the enumeration of a key gives. */
  lemma {:induction false} OneListing<Key>(g: Layout<Key>, key: Key, a: seq<int>, b: seq<int>)
    requires InOrder(g, key, a) && InOrder(g, key, b) && SameMembers(a, b)
    ensures a == b
  {
    if |a| > 0 { MemberOf(a, b, 0); }
    if |b| > 0 { MemberOf(b, a, 0); }
    if |a| > 0 && |b| > 0 {
      SameHead(g, key, a, b);
      SameTail(g, key, a, b);
      OneListing(g, key, a[1..], b[1..]);
      assert a == [a[0]] + a[1..] && b == [b[0]] + b[1..];
    }
  }
}
