/** Erasing every entry that a predicate selects, one slot at a time. */
module Sifting {
  import opened Slots
  import opened Probing
  import opened Rebuild
  import opened Scrubbing
  import opened Listing

  /** `u` comes from `t` by dropping entries that `drop` selects. */
  ghost predicate Sifted<Key(!new), Val(!new)>(t: Table<Key, Val>, u: Table<Key, Val>, drop: (Key, Val) -> bool)
    requires |t.states| == |t.keys| == |t.vals| && |u.states| == |u.keys| == |u.vals|
  {
    && |Bag(u)| <= |Bag(t)|
    && (forall k: Key, v: Val {:trigger Some((k, v))} ::
          Bag(u)[Some((k, v))] <= Bag(t)[Some((k, v))]
            && (!drop(k, v) ==> Bag(u)[Some((k, v))] == Bag(t)[Some((k, v))]))
  }

  /** No entry in the first `n` slots is selected. */
  ghost predicate CleanBelow<Key, Val>(u: Table<Key, Val>, drop: (Key, Val) -> bool, n: int)
    requires |u.states| == |u.keys| == |u.vals|
  {
    forall p :: 0 <= p < n && Live(u, p) ==> !drop(u.keys[p], u.vals[p])
  }

  /** Exactly the selected entries are gone. */
  ghost predicate Dropped<Key(!new), Val(!new)>(t: multiset<Option<(Key, Val)>>, u: multiset<Option<(Key, Val)>>,
                                                drop: (Key, Val) -> bool) {
    forall k: Key, v: Val {:trigger Some((k, v))} :: u[Some((k, v))] == if drop(k, v) then 0 else t[Some((k, v))]
  }

  lemma SiftStart<Key(!new), Val(!new)>(t: Table<Key, Val>, drop: (Key, Val) -> bool)
    requires |t.states| == |t.keys| == |t.vals|
    ensures Sifted(t, t, drop) && CleanBelow(t, drop, 0)
  {
  }

  /** Dropping one more selected entry. */
  lemma SiftOne<Key(!new), Val(!new)>(g: Layout<Key>, t: Table<Key, Val>, u: Table<Key, Val>, dup: bool,
                                      drop: (Key, Val) -> bool, p: int)
    requires |t.states| == |t.keys| == |t.vals| && GoodLayout(g) && Inv(g, u, dup) && Sifted(t, u, drop)
    requires Live(u, p) && drop(u.keys[p], u.vals[p])
    ensures Fits(g, Vacate(g, u, p)) && Sifted(t, Vacate(g, u, p), drop)
    ensures |Bag(Vacate(g, u, p))| == |Bag(u)| - 1
  {
    hide Bag, GoodLayout, Reachable, TombstonesCover, UniqueKeys, Fingerprinted, Vacate;
    VacateKeeps(g, u, dup, p);
  }

  lemma VacateShape<Key(!new), Val>(g: Layout<Key>, u: Table<Key, Val>, p: int)
    requires GoodLayout(g) && Fits(g, u) && Live(u, p)
    ensures Fits(g, Vacate(g, u, p)) && Vacate(g, u, p).keys == u.keys && Vacate(g, u, p).vals == u.vals
    ensures AgreeBut(g, u, Vacate(g, u, p), g.bucket[p], p)
    ensures forall q :: Live(Vacate(g, u, p), q) <==> Live(u, q) && q != p
    ensures HasEmpty(g, Vacate(g, u, p), g.bucket[p]) <==> HasEmpty(g, u, g.bucket[p])
    ensures forall e :: EmptyAt(u, e) ==> EmptyAt(Vacate(g, u, p), e)
  {
    var v := Vacate(g, u, p);
    if HasEmpty(g, u, g.bucket[p]) {
      assert EmptyAt(v, p);
    } else {
      forall e | EmptyAt(v, e) ensures g.bucket[e] != g.bucket[p] {
        assert e != p && EmptyAt(u, e);
      }
    }
  }

  lemma CleanVacate<Key(!new), Val>(g: Layout<Key>, u: Table<Key, Val>, drop: (Key, Val) -> bool, p: int)
    requires GoodLayout(g) && Fits(g, u) && Live(u, p) && CleanBelow(u, drop, p)
    ensures Fits(g, Vacate(g, u, p)) && CleanBelow(Vacate(g, u, p), drop, p + 1)
  {
    VacateShape(g, u, p);
  }

  lemma CleanSkip<Key, Val>(u: Table<Key, Val>, drop: (Key, Val) -> bool, p: int)
    requires |u.states| == |u.keys| == |u.vals| && CleanBelow(u, drop, p) && 0 <= p < |u.states|
    requires Live(u, p) ==> !drop(u.keys[p], u.vals[p])
    ensures CleanBelow(u, drop, p + 1)
  {
  }

  lemma NotSelected<Key, Val>(u: Table<Key, Val>, drop: (Key, Val) -> bool, k: Key, v: Val)
    requires |u.states| == |u.keys| == |u.vals| && CleanBelow(u, drop, |u.states|) && Some((k, v)) in Bag(u)
    ensures !drop(k, v)
  {
    PrefixAll(u);
    var q := PrefixHas(u, |u.states|, Some((k, v)));
    assert Live(u, q) && u.keys[q] == k && u.vals[q] == v;
  }

  lemma SiftDone<Key(!new), Val(!new)>(t: Table<Key, Val>, u: Table<Key, Val>, drop: (Key, Val) -> bool)
    requires |t.states| == |t.keys| == |t.vals| && |u.states| == |u.keys| == |u.vals|
    requires Sifted(t, u, drop) && CleanBelow(u, drop, |u.states|)
    ensures Dropped(Bag(t), Bag(u), drop)
  {
    hide Bag;
    forall k: Key, v: Val ensures Bag(u)[Some((k, v))] == if drop(k, v) then 0 else Bag(t)[Some((k, v))] {
      if Some((k, v)) in Bag(u) { NotSelected(u, drop, k, v); }
    }
  }

  // ---------------------------------------------------------------- the marks

  /** What an erased slot becomes, by whether its bucket has an empty slot. */
  ghost function Mark<Key, Val>(g: Layout<Key>, t: Table<Key, Val>, p: int): int
    requires Fits(g, t) && 0 <= p < |t.states|
  {
    if HasEmpty(g, t, g.bucket[p]) then EMPTY else TOMBSTONE
  }

  /** The slots of all selected entries are marked, and nothing else is touched. */
  ghost function Marked<Key, Val>(g: Layout<Key>, t: Table<Key, Val>, drop: (Key, Val) -> bool): (u: Table<Key, Val>)
    requires Fits(g, t)
    ensures Fits(g, u)
  {
    t.(states := seq(|t.states|, p requires 0 <= p < |t.states| =>
                       if IsHash(t.states[p]) && drop(t.keys[p], t.vals[p]) then Mark(g, t, p) else t.states[p]))
  }

  /** So far some of them are. */
  ghost predicate Marking<Key, Val>(g: Layout<Key>, t: Table<Key, Val>, u: Table<Key, Val>, drop: (Key, Val) -> bool) {
    && Fits(g, t) && Fits(g, u) && u.keys == t.keys && u.vals == t.vals
    && (forall b :: HasEmpty(g, u, b) <==> HasEmpty(g, t, b))
    && (forall p :: 0 <= p < |t.states| && u.states[p] != t.states[p] ==>
          Live(t, p) && drop(t.keys[p], t.vals[p]) && u.states[p] == Mark(g, t, p))
  }

  lemma MarkStart<Key, Val>(g: Layout<Key>, t: Table<Key, Val>, drop: (Key, Val) -> bool)
    requires Fits(g, t)
    ensures Marking(g, t, t, drop)
  {
  }

  lemma MarkOne<Key(!new), Val>(g: Layout<Key>, t: Table<Key, Val>, u: Table<Key, Val>, drop: (Key, Val) -> bool,
                                p: int)
    requires GoodLayout(g) && Marking(g, t, u, drop) && Live(u, p) && drop(u.keys[p], u.vals[p])
    ensures Marking(g, t, Vacate(g, u, p), drop)
  {
    hide GoodLayout, HasEmpty;
    var v := Vacate(g, u, p);
    forall b ensures HasEmpty(g, v, b) <==> HasEmpty(g, u, b) { VacateEmpties(g, u, p, b); }
    assert Live(t, p);
  }

  lemma VacateEmpties<Key, Val>(g: Layout<Key>, u: Table<Key, Val>, p: int, b: int)
    requires Fits(g, u) && Live(u, p)
    ensures HasEmpty(g, Vacate(g, u, p), b) <==> HasEmpty(g, u, b)
  {
    var v := Vacate(g, u, p);
    if e :| EmptyAt(u, e) && g.bucket[e] == b { assert EmptyAt(v, e); }
    if e :| EmptyAt(v, e) && g.bucket[e] == b { assert e != p ==> EmptyAt(u, e); }
  }

  lemma AllMarked<Key, Val>(g: Layout<Key>, t: Table<Key, Val>, u: Table<Key, Val>, drop: (Key, Val) -> bool)
    requires Marking(g, t, u, drop) && CleanBelow(u, drop, |u.states|)
    ensures u == Marked(g, t, drop)
  {
    forall p | 0 <= p < |t.states| ensures u.states[p] == Marked(g, t, drop).states[p] {
      if u.states[p] == t.states[p] { assert Live(u, p) ==> !drop(u.keys[p], u.vals[p]); }
    }
    assert u.states == Marked(g, t, drop).states;
  }

  lemma KeyMarked<Key(!new), Val(!new)>(g: Layout<Key>, t: Table<Key, Val>, u: Table<Key, Val>, key: Key)
    requires Marking(g, t, u, IsKey(key)) && !Holds(u, key)
    ensures u == Marked(g, t, IsKey(key))
  {
    assert CleanBelow(u, IsKey(key), |u.states|);
    AllMarked(g, t, u, IsKey(key));
  }

  /** Without duplicates there is one slot to mark. */
  lemma OneMarked<Key(!new), Val(!new)>(g: Layout<Key>, t: Table<Key, Val>, key: Key, p: int)
    requires GoodLayout(g) && Inv(g, t, false) && Live(t, p) && t.keys[p] == key
    ensures Fits(g, t) && Vacate(g, t, p) == Marked(g, t, IsKey(key))
  {
    hide GoodLayout, Reachable, TombstonesCover, Fingerprinted, Mark;
    var u := Vacate(g, t, p);
    MarkStart(g, t, IsKey(key));
    MarkOne(g, t, t, IsKey(key), p);
    forall q | Live(u, q) ensures u.keys[q] != key { assert q != p && Live(t, q); }
    KeyMarked(g, t, u, key);
  }

  /** The tombstones that an erase leaves. */
  ghost function Buried<Key, Val>(t: Table<Key, Val>, u: Table<Key, Val>): int {
    Count(u.states, TOMBSTONE) - Count(t.states, TOMBSTONE)
  }

  lemma VacateBuries<Key, Val>(g: Layout<Key>, t: Table<Key, Val>, p: int)
    requires Fits(g, t) && Live(t, p)
    ensures Buried(t, Vacate(g, t, p)) == if HasEmpty(g, t, g.bucket[p]) then 0 else 1
  {
    CountUpdate(t.states, p, Mark(g, t, p));
  }

  /** One slot of a bucket whose copy `k` was loaded before any of it was erased. */
  lemma SiftStep<Key(!new), Val(!new)>(g: Layout<Key>, t0: Table<Key, Val>, t: Table<Key, Val>, dup: bool,
                                       drop: (Key, Val) -> bool,
                                       k: seq<int>, b: int, x: nat)
    requires |t0.states| == |t0.keys| == |t0.vals| && GoodLayout(g) && Inv(g, t, dup) && Sifted(t0, t, drop)
    requires UpToDate(g, t, k, b, x) && x < g.K && CleanBelow(t, drop, b + x)
    requires Live(t, b + x) && drop(t.keys[b + x], t.vals[b + x])
    ensures var u := Vacate(g, t, b + x);
      && Fits(g, u) && Sifted(t0, u, drop) && CleanBelow(u, drop, b + x + 1) && UpToDate(g, u, k, b, x + 1)
      && |Bag(u)| == |Bag(t)| - 1 && (HasEmpty(g, u, b) <==> HasEmpty(g, t, b))
  {
    hide GoodLayout, Reachable, TombstonesCover, UniqueKeys, Fingerprinted, Bag, Sifted, Vacate, HasEmpty, UpToDate,
      AgreeBut, CleanBelow;
    UpToDateAt(g, t, k, b, x);
    SiftOne(g, t0, t, dup, drop, b + x);
    VacateShape(g, t, b + x);
    CleanVacate(g, t, drop, b + x);
    StillUpToDate(g, t, Vacate(g, t, b + x), k, b, x);
  }

  lemma SiftSkip<Key(!new), Val(!new)>(g: Layout<Key>, t: Table<Key, Val>, drop: (Key, Val) -> bool, k: seq<int>,
                                       b: int, x: nat)
    requires Fits(g, t) && UpToDate(g, t, k, b, x) && x < g.K && CleanBelow(t, drop, b + x)
    requires Live(t, b + x) ==> !drop(t.keys[b + x], t.vals[b + x])
    ensures CleanBelow(t, drop, b + x + 1) && UpToDate(g, t, k, b, x + 1)
  {
    CleanSkip(t, drop, b + x);
  }

  // ---------------------------------------------------------------- one key

  ghost function IsKey<Key(!new), Val(!new)>(key: Key): (Key, Val) -> bool {
    (k, v) => k == key
  }

  /** The first `i` slots that a mask names no longer hold `key`; the others are as loaded. */
  ghost predicate Swept<Key, Val>(t: Table<Key, Val>, k: seq<int>, b: int, m: seq<int>, i: int, key: Key)
    requires |t.states| == |t.keys|
  {
    && 0 <= b && b + |k| <= |t.states|
    && (forall l :: 0 <= l < i && l < |m| ==> 0 <= m[l] < |k| && !(Live(t, b + m[l]) && t.keys[b + m[l]] == key))
    && (forall y :: 0 <= y < |k| && (forall l :: 0 <= l < i && l < |m| ==> m[l] != y) ==> t.states[b + y] == k[y])
  }

  /** The mask lists its slots in increasing order, so the next one is still as loaded. */
  lemma SweptNext<Key, Val>(t: Table<Key, Val>, k: seq<int>, s: int, b: int, m: seq<int>, i: int, key: Key)
    requires |t.states| == |t.keys| && Swept(t, k, b, m, i, key) && Matches(k, s, m) && 0 <= i < |m|
    ensures 0 <= m[i] < |k| && Live(t, b + m[i])
    ensures t.keys[b + m[i]] != key ==> Swept(t, k, b, m, i + 1, key)
  {
    assert t.states[b + m[i]] == k[m[i]];
  }

  lemma SweptVacate<Key(!new), Val>(g: Layout<Key>, t: Table<Key, Val>, k: seq<int>, s: int, b: int, m: seq<int>,
                                    i: int, key: Key)
    requires GoodLayout(g) && Fits(g, t) && Swept(t, k, b, m, i, key) && Matches(k, s, m) && 0 <= i < |m|
    requires 0 <= m[i] < |k| && Live(t, b + m[i])
    ensures Fits(g, Vacate(g, t, b + m[i])) && Swept(Vacate(g, t, b + m[i]), k, b, m, i + 1, key)
  {
    hide GoodLayout, HasEmpty, Matches;
    VacateShape(g, t, b + m[i]);
    var u := Vacate(g, t, b + m[i]);
    forall y | 0 <= y < |k| && (forall l :: 0 <= l < i + 1 && l < |m| ==> m[l] != y) ensures u.states[b + y] == k[y] {
      assert m[i] != y;
    }
  }

  lemma SweptSlot<Key, Val>(g: Layout<Key>, t: Table<Key, Val>, k: seq<int>, b: int, m: seq<int>, key: Key, y: int)
    requires Fits(g, t) && Fingerprinted(g, t) && Matches(k, g.finger(key), m) && Swept(t, k, b, m, |m|, key)
    requires 0 <= y < |k| && Live(t, b + y)
    ensures t.keys[b + y] != key
  {
    if l :| 0 <= l < |m| && m[l] == y {
    } else {
      assert t.states[b + y] == k[y];
      assert k[y] == g.finger(key) ==> y in m;
    }
  }

  lemma SweptDone<Key(!new), Val>(g: Layout<Key>, t: Table<Key, Val>, k: seq<int>, j: int, m: seq<int>, key: Key)
    requires GoodLayout(g) && Fits(g, t) && Fingerprinted(g, t) && 0 <= j < g.n && NotBefore(g, t, key, j)
    requires |k| == g.K && Matches(k, g.finger(key), m) && Swept(t, k, g.path(key, j), m, |m|, key)
    ensures NotBefore(g, t, key, j + 1)
  {
    hide Matches, Fingerprinted, Swept, NotBefore;
    var b := g.path(key, j);
    BucketRange(g, key, j);
    forall p | b <= p < b + g.K && Live(t, p) ensures t.keys[p] != key {
      SweptSlot(g, t, k, b, m, key, p - b);
    }
    BucketSearched(g, t, key, j);
  }

  lemma VacateNotBefore<Key(!new), Val>(g: Layout<Key>, t: Table<Key, Val>, key: Key, j: int, p: int)
    requires GoodLayout(g) && Fits(g, t) && Live(t, p) && NotBefore(g, t, key, j)
    ensures Fits(g, Vacate(g, t, p)) && NotBefore(g, Vacate(g, t, p), key, j)
  {
    VacateShape(g, t, p);
  }

  ghost predicate EmptiesStay<Key, Val>(t: Table<Key, Val>, u: Table<Key, Val>) {
    forall e :: EmptyAt(t, e) ==> EmptyAt(u, e)
  }

  lemma SweptStart<Key, Val>(t: Table<Key, Val>, k: seq<int>, b: int, m: seq<int>, key: Key)
    requires |t.states| == |t.keys| && 0 <= b && b + |k| <= |t.states| && k == t.states[b..b + |k|]
    ensures Swept(t, k, b, m, 0, key) && EmptiesStay(t, t)
  {
  }

  lemma PathBucket<Key(!new), Val>(g: Layout<Key>, t: Table<Key, Val>, key: Key, j: int)
    requires GoodLayout(g) && Fits(g, t) && 0 <= j < g.n
    ensures var b := g.path(key, j);
      && 0 <= b && b + g.K <= |t.states| && (EMPTY in Loaded(t.states, b, g.K) <==> HasEmpty(g, t, b))
      && Loaded(t.states, b, g.K) == t.states[b..b + g.K]
  {
    LoadedHasEmpty(g, t, g.path(key, j));
  }

  /** Erasing the next slot of the mask that holds `key`. */
  lemma SweepStep<Key(!new), Val(!new)>(g: Layout<Key>, t0: Table<Key, Val>, u0: Table<Key, Val>, t: Table<Key, Val>,
                                        dup: bool,
                                        k: seq<int>, b: int, m: seq<int>, i: int, key: Key, j: int)
    requires |t0.states| == |t0.keys| == |t0.vals| && GoodLayout(g) && Inv(g, t, dup) && Sifted(t0, t, IsKey(key))
    requires 0 <= j < g.n && b == g.path(key, j) && |k| == g.K && NotBefore(g, t, key, j)
    requires Matches(k, g.finger(key), m) && Swept(t, k, b, m, i, key) && 0 <= i < |m|
    requires 0 <= m[i] < |k| && Live(t, b + m[i]) && t.keys[b + m[i]] == key
    ensures var u := Vacate(g, t, b + m[i]);
      && Fits(g, u) && Sifted(t0, u, IsKey(key)) && NotBefore(g, u, key, j) && Swept(u, k, b, m, i + 1, key)
      && |Bag(u)| == |Bag(t)| - 1 && (HasEmpty(g, u, b) <==> HasEmpty(g, t, b)) && g.bucket[b + m[i]] == b
      && (EmptiesStay(u0, t) ==> EmptiesStay(u0, u))
  {
    hide GoodLayout, Reachable, TombstonesCover, UniqueKeys, Fingerprinted, Bag, Sifted, Vacate, HasEmpty, Swept,
      Matches, NotBefore;
    BucketRange(g, key, j);
    SiftOne(g, t0, t, dup, IsKey(key), b + m[i]);
    VacateShape(g, t, b + m[i]);
    VacateNotBefore(g, t, key, j, b + m[i]);
    SweptVacate(g, t, k, g.finger(key), b, m, i, key);
  }

  /** An empty slot in the bucket ends the search for further entries of the key. */
  lemma SweepStops<Key(!new), Val>(g: Layout<Key>, t: Table<Key, Val>, u: Table<Key, Val>, dup: bool, key: Key, j: int)
    requires GoodLayout(g) && Fits(g, t) && Inv(g, u, dup) && 0 <= j < g.n && NotBefore(g, u, key, j + 1)
    requires HasEmpty(g, t, g.path(key, j)) <==> HasEmpty(g, u, g.path(key, j))
    ensures HasEmpty(g, t, g.path(key, j)) ==> !Holds(u, key)
    ensures !HasEmpty(g, t, g.path(key, j)) ==> forall e :: EmptyAt(t, e) ==> g.rank(key, e) != j
  {
    hide Reachable, TombstonesCover, UniqueKeys, Fingerprinted, NotBefore, Holds;
    if HasEmpty(g, t, g.path(key, j)) {
      var e :| EmptyAt(u, e) && g.bucket[e] == g.path(key, j);
      EmptyEndsSearch(g, u, dup, key, e);
    }
  }

  lemma NoneLeft<Key(!new), Val(!new)>(g: Layout<Key>, t: Table<Key, Val>, u: Table<Key, Val>, key: Key)
    requires |t.states| == |t.keys| == |t.vals| && |u.states| == |u.keys| == |u.vals|
    requires Sifted(t, u, IsKey(key)) && !Holds(u, key)
    ensures Dropped(Bag(t), Bag(u), IsKey(key))
  {
    hide Bag;
    assert CleanBelow(u, IsKey(key), |u.states|);
    SiftDone(t, u, IsKey(key));
  }

  lemma StillEmpty<Key, Val>(t: Table<Key, Val>, u: Table<Key, Val>, e: int)
    requires EmptiesStay(t, u) && EmptyAt(t, e)
    ensures EmptyAt(u, e)
  {
  }

  lemma OnlyEntry<Key(!new), Val>(g: Layout<Key>, t: Table<Key, Val>, key: Key, at: int, v: Val)
    requires Inv(g, t, false) && Live(t, at) && t.keys[at] == key
    ensures Bag(t)[Some((key, v))] == if v == t.vals[at] then 1 else 0
  {
    var u := Vacate(g, t, at);
    BagUpdate(t, u, at);
    forall p | Live(u, p) ensures u.keys[p] != key {
      assert p != at && Live(t, p);
      assert t.keys[p] == key ==> p == at;
    }
    HoldsInBag(u, key);
  }

  /** Without duplicates the first entry of a key is all there is. */
  lemma OneKeyDropped<Key(!new), Val(!new)>(g: Layout<Key>, t: Table<Key, Val>, u: Table<Key, Val>, key: Key,
                                            found: bool, at: int)
    requires Inv(g, t, false) && |u.states| == |u.keys| == |u.vals|
    requires found <==> Holds(t, key)
    requires found ==> Live(t, at) && t.keys[at] == key
    requires found ==> Bag(u) == Bag(t) - multiset{Some((key, t.vals[at]))}
    requires !found ==> u == t
    ensures Dropped(Bag(t), Bag(u), IsKey(key))
    ensures |Bag(u)| + (if found then 1 else 0) == |Bag(t)|
  {
    hide Bag, Reachable, TombstonesCover, Fingerprinted;
    forall k: Key, v: Val ensures Bag(u)[Some((k, v))] == if k == key then 0 else Bag(t)[Some((k, v))] {
      if k == key {
        if found { OnlyEntry(g, t, key, at, v); } else { HoldsInBag(t, key); }
      }
    }
    if found { OnlyEntry(g, t, key, at, t.vals[at]); }
  }

  /** Dropping one selected entry, in whatever way. */
  lemma SiftedOne<Key(!new), Val(!new)>(t: Table<Key, Val>, u: Table<Key, Val>, v: Table<Key, Val>,
                                        drop: (Key, Val) -> bool, p: int)
    requires |t.states| == |t.keys| == |t.vals| && |u.states| == |u.keys| == |u.vals| && Sifted(t, u, drop)
             && CleanBelow(u, drop, p)
    requires Live(u, p) && drop(u.keys[p], u.vals[p]) && v == SetState(u, p, EMPTY)
    requires Some((u.keys[p], u.vals[p])) in Bag(u) && Bag(v) == Bag(u) - multiset{Some((u.keys[p], u.vals[p]))}
    ensures Sifted(t, v, drop) && CleanBelow(v, drop, p + 1) && |Bag(v)| == |Bag(u)| - 1
  {
    hide Bag;
    forall q | 0 <= q < p + 1 && Live(v, q) ensures !drop(v.keys[q], v.vals[q]) { assert q != p && Live(u, q); }
  }

  /** The same for the bags alone. */
  lemma SiftBag<Key(!new), Val(!new)>(t: Table<Key, Val>, u: Table<Key, Val>, v: Table<Key, Val>,
                                      drop: (Key, Val) -> bool, key: Key, val: Val)
    requires |t.states| == |t.keys| == |t.vals| && |u.states| == |u.keys| == |u.vals|
             && |v.states| == |v.keys| == |v.vals|
    requires Sifted(t, u, drop) && drop(key, val)
    requires Some((key, val)) in Bag(u) && Bag(v) == Bag(u) - multiset{Some((key, val))}
    ensures Sifted(t, v, drop) && |Bag(v)| == |Bag(u)| - 1
  {
    hide Bag;
  }

  // ---------------------------------------------------------------- the chain of erases

  /** The entries at the slots of `found` have been erased from `t0`, and nothing else. */
  ghost predicate ErasedAt<Key, Val>(t0: Table<Key, Val>, t: Table<Key, Val>, found: seq<int>) {
    && |t.states| == |t0.states| && t.keys == t0.keys && t.vals == t0.vals
    && (forall p :: Live(t, p) <==> Live(t0, p) && p !in found)
  }

  lemma ErasedNone<Key, Val>(t0: Table<Key, Val>)
    ensures ErasedAt(t0, t0, [])
  {
  }

  lemma ErasedStep<Key, Val>(g: Layout<Key>, t0: Table<Key, Val>, t: Table<Key, Val>, found: seq<int>, q: int)
    requires ErasedAt(t0, t, found) && Live(t, q) && Fits(g, t)
    ensures ErasedAt(t0, Vacate(g, t, q), found + [q])
  {
    var u := Vacate(g, t, q);
    forall p ensures Live(u, p) <==> Live(t0, p) && p !in found + [q] {
      assert Live(u, p) <==> Live(t, p) && p != q;
      assert p in found + [q] <==> p in found || p == q;
    }
  }

  lemma NoneErased<Key(!new), Val(!new)>(g: Layout<Key>, t0: Table<Key, Val>, key: Key)
    requires |t0.states| == |t0.keys| == |t0.vals| && !Holds(t0, key)
    ensures InOrder(g, key, []) && Chained(g, t0, key, []) && forall p :: Live(t0, p) ==> t0.keys[p] != key
    ensures Sifted(t0, t0, IsKey(key)) && Dropped(Bag(t0), Bag(t0), IsKey(key))
  {
    hide Bag;
    SiftDone(t0, t0, IsKey(key));
  }

  /** The next entry, or the last one, in what is left is the next or the last of all. */
  lemma NextOfErased<Key, Val>(g: Layout<Key>, t0: Table<Key, Val>, t: Table<Key, Val>, key: Key, found: seq<int>,
                               q: int)
    requires |t0.states| == |t0.keys| == |t.keys| == |t.states| && ErasedAt(t0, t, found) && Chained(g, t0, key, found)
             && |found| > 0
    requires IsNext(g, t, key, found[|found| - 1], q)
    ensures IsNext(g, t0, key, found[|found| - 1], q)
  {
    forall x | Live(t0, x) && t0.keys[x] == key && Earlier(g, key, found[|found| - 1], x) ensures Live(t, x) {}
  }

  lemma LastOfErased<Key, Val>(g: Layout<Key>, t0: Table<Key, Val>, t: Table<Key, Val>, key: Key, found: seq<int>)
    requires |t0.states| == |t0.keys| == |t.keys| == |t.states| && ErasedAt(t0, t, found) && Chained(g, t0, key, found)
             && |found| > 0
    requires IsLast(g, t, key, found[|found| - 1])
    ensures IsLast(g, t0, key, found[|found| - 1])
  {
    forall x | Live(t0, x) && t0.keys[x] == key && Earlier(g, key, found[|found| - 1], x) ensures Live(t, x) {}
  }

  lemma AllErased<Key(!new), Val(!new)>(t0: Table<Key, Val>, t: Table<Key, Val>, key: Key, found: seq<int>)
    requires |t0.states| == |t0.keys| == |t0.vals| && |t.states| == |t.keys| == |t.vals|
    requires ErasedAt(t0, t, found) && Sifted(t0, t, IsKey(key)) && forall p :: p in found <==>
               Live(t0, p) && t0.keys[p] == key
    ensures Dropped(Bag(t0), Bag(t), IsKey(key))
  {
    hide Bag, Sifted;
    SiftDone(t0, t, IsKey(key));
  }

  /** `t` is what the chain of erases at the slots of `found` has left of `t0`. */
  ghost predicate Chasing<Key(!new), Val(!new)>(g: Layout<Key>, t0: Table<Key, Val>, t: Table<Key, Val>, key: Key,
                                                found: seq<int>) {
    && Fits(g, t0) && Fits(g, t) && |found| > 0
    && Chained(g, t0, key, found) && ErasedAt(t0, t, found) && Reached(g, t, key, found[|found| - 1])
    && g.rank(key, found[|found| - 1]) >= 0
    && Sifted(t0, t, IsKey(key)) && |found| + |Bag(t)| == |Bag(t0)|
  }

  lemma ChasingFacts<Key(!new), Val(!new)>(g: Layout<Key>, t0: Table<Key, Val>, t: Table<Key, Val>, key: Key,
                                           found: seq<int>)
    requires Chasing(g, t0, t, key, found)
    ensures Fits(g, t0) && Fits(g, t) && |found| > 0 && Reached(g, t, key, found[|found| - 1])
    ensures g.rank(key, found[|found| - 1]) >= 0 && |found| <= |t0.states|
  {
    ChainShort(g, t0, key, found);
  }

  /** What holds at the end of the chain, whether it was cut short or not. */
  ghost predicate Chased<Key(!new), Val(!new)>(g: Layout<Key>, t0: Table<Key, Val>, u: Table<Key, Val>, key: Key,
                                               found: seq<int>) {
    && |t0.states| == |t0.keys| == |t0.vals| && |u.states| == |u.keys| == |u.vals|
    && Chained(g, t0, key, found) && Sifted(t0, u, IsKey(key)) && |found| + |Bag(u)| == |Bag(t0)|
  }

  lemma FirstErased<Key(!new), Val(!new)>(g: Layout<Key>, t0: Table<Key, Val>, u: Table<Key, Val>, dup: bool, key: Key,
                                          q: int, kept: bool)
    requires GoodLayout(g) && Inv(g, t0, dup) && IsFirst(g, t0, key, q) && |u.states| == |u.keys| == |u.vals|
    requires Some((key, t0.vals[q])) in Bag(t0) && Bag(u) == Bag(t0) - multiset{Some((key, t0.vals[q]))}
    requires kept ==> u == Vacate(g, t0, q)
    ensures Chased(g, t0, u, key, [q]) && (kept ==> Chasing(g, t0, u, key, [q]))
  {
    hide Bag, Sifted, ErasedAt, Chained, IsFirst, Vacate, Reached, GoodLayout, Inv;
    InvFits(g, t0, dup);
    FirstIsHeld(g, t0, key, q);
    ChainFirst(g, t0, key, q);
    SiftStart(t0, IsKey(key));
    SiftBag(t0, t0, u, IsKey(key), key, t0.vals[q]);
    ErasedNone(t0);
    ErasedStep(g, t0, t0, [], q);
    assert [] + [q] == [q];
    ErasedIsReached(g, t0, dup, key, q);
    RankBounds(g, key, q);
  }

  /** One more erase: `u` is what it leaves of `t`, if `kept` in the slots it was in. */
  lemma OneMoreErased<Key(!new), Val(!new)>(g: Layout<Key>, t0: Table<Key, Val>, t: Table<Key, Val>, u: Table<Key, Val>,
                                            dup: bool, key: Key, found: seq<int>, q: int, kept: bool)
    requires GoodLayout(g) && Inv(g, t, dup) && |u.states| == |u.keys| == |u.vals|
    requires Chasing(g, t0, t, key, found) && IsNext(g, t, key, found[|found| - 1], q)
    requires Some((key, t.vals[q])) in Bag(t) && Bag(u) == Bag(t) - multiset{Some((key, t.vals[q]))}
    requires kept ==> u == Vacate(g, t, q)
    ensures Chased(g, t0, u, key, found + [q]) && (kept ==> Chasing(g, t0, u, key, found + [q]))
  {
    hide Bag, Sifted, ErasedAt, Chained, IsNext, Vacate, Reached, GoodLayout, Inv;
    NextIsLive(g, t, key, found[|found| - 1], q);
    NextOfErased(g, t0, t, key, found, q);
    ChainStep(g, t0, key, found, q);
    SiftBag(t0, t, u, IsKey(key), key, t.vals[q]);
    ErasedStep(g, t0, t, found, q);
    ErasedIsReached(g, t, dup, key, q);
    RankBounds(g, key, q);
  }

  /** The end of the chain: every entry of the key is gone. */
  lemma ChainOfErases<Key(!new), Val(!new)>(g: Layout<Key>, t0: Table<Key, Val>, t: Table<Key, Val>, dup: bool,
                                            key: Key, found: seq<int>)
    requires Inv(g, t0, dup) && Chasing(g, t0, t, key, found) && (dup ==> IsLast(g, t, key, found[|found| - 1]))
    ensures Chased(g, t0, t, key, found) && forall p :: Live(t0, p) && t0.keys[p] == key ==> p in found
    ensures Dropped(Bag(t0), Bag(t), IsKey(key))
  {
    hide Bag, Sifted, ErasedAt, IsLast, Inv, Dropped;
    if dup { LastOfErased(g, t0, t, key, found); } else { OnlyIsLast(g, t0, key, found[|found| - 1]); }
    ChainDone(g, t0, key, found);
    AllErased(t0, t, key, found);
  }
}
