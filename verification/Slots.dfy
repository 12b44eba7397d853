/** The slot arrays of the map as a value, the geometry that probing imposes on them, and
    the invariant every operation keeps.

    Nothing here computes a probe sequence.  A `Layout` records which bucket a slot
    belongs to and, for each key, the order in which buckets are probed; `MapLayout`
    builds the layout of a real probe sequence and proves that it is well formed. */
module Slots {
  datatype Option<+T> = None | Some(value: T)

  /** State bytes: a fingerprint in 0..127, or one of two negative markers. */
  const EMPTY := -128
  const TOMBSTONE := -127

  predicate IsHash(s: int) { s >= 0 }

  predicate ValidState(s: int) { s == EMPTY || s == TOMBSTONE || 0 <= s < 128 }

  /** `bucket[p]` is the offset of the bucket that slot `p` lies in, `path(key, j)` for
      `0 <= j < n` is the offset of the bucket that `key` probes in its step `j`, and
      `rank(key, p)` is the step in which it gets to slot `p`. */
  datatype Layout<!Key> = Layout(K: nat, n: nat, bucket: seq<int>, path: (Key, int) -> int, rank: (Key, int) -> int,
    finger: Key -> int)

  datatype Table<Key, Val> = Table(states: seq<int>, keys: seq<Key>, vals: seq<Val>)

  ghost predicate GoodBuckets<Key>(g: Layout<Key>) {
    && g.K >= 1
    && (forall p :: 0 <= p < |g.bucket| ==> 0 <= g.bucket[p] <= p < g.bucket[p] + g.K <= |g.bucket|)
    && (forall p, q :: 0 <= p < |g.bucket| && g.bucket[p] <= q < g.bucket[p] + g.K ==> g.bucket[q] == g.bucket[p])
  }

  /** The probe path of every key visits every bucket exactly once. */
  ghost predicate GoodPaths<Key(!new)>(g: Layout<Key>)
    requires GoodBuckets(g)
  {
    && (forall k: Key, j :: 0 <= j < g.n ==>
          0 <= g.path(k, j) < |g.bucket| && g.bucket[g.path(k, j)] == g.path(k, j) && g.rank(k, g.path(k, j)) == j)
    && (forall k: Key, p :: 0 <= p < |g.bucket| ==>
          0 <= g.rank(k, p) < g.n && g.path(k, g.rank(k, p)) == g.bucket[p] && g.rank(k, g.bucket[p]) == g.rank(k, p))
    && (forall k: Key :: 0 <= g.finger(k) < 128)
  }

  ghost predicate GoodLayout<Key(!new)>(g: Layout<Key>) {
    GoodBuckets(g) && GoodPaths(g)
  }

  lemma SameBucketSameRank<Key(!new)>(g: Layout<Key>, k: Key, p: int, q: int)
    requires GoodLayout(g) && 0 <= p < |g.bucket| && 0 <= q < |g.bucket| && g.bucket[p] == g.bucket[q]
    ensures g.rank(k, p) == g.rank(k, q)
  {
  }

  predicate Fits<Key, Val>(g: Layout<Key>, t: Table<Key, Val>) {
    |t.states| == |t.keys| == |t.vals| == |g.bucket|
  }

  predicate Live<Key, Val>(t: Table<Key, Val>, p: int) {
    0 <= p < |t.states| && IsHash(t.states[p])
  }

  predicate EmptyAt<Key, Val>(t: Table<Key, Val>, p: int) {
    0 <= p < |t.states| && t.states[p] == EMPTY
  }

  predicate TombAt<Key, Val>(t: Table<Key, Val>, p: int) {
    0 <= p < |t.states| && t.states[p] == TOMBSTONE
  }

  /** No bucket that precedes a live entry on its own probe path has an empty slot. */
  ghost predicate Reachable<Key, Val>(g: Layout<Key>, t: Table<Key, Val>)
    requires Fits(g, t)
  {
    forall p, e :: Live(t, p) && EmptyAt(t, e) ==> g.rank(t.keys[p], p) <= g.rank(t.keys[p], e)
  }

  /** A bucket with a tombstone has no empty slot. */
  ghost predicate TombstonesCover<Key, Val>(g: Layout<Key>, t: Table<Key, Val>)
    requires Fits(g, t)
  {
    forall p, e :: TombAt(t, p) && EmptyAt(t, e) ==> g.bucket[p] != g.bucket[e]
  }

  ghost predicate Fingerprinted<Key, Val>(g: Layout<Key>, t: Table<Key, Val>)
    requires Fits(g, t)
  {
    && (forall p :: 0 <= p < |t.states| ==> ValidState(t.states[p]))
    && (forall p :: Live(t, p) ==> t.states[p] == g.finger(t.keys[p]))
  }

  ghost predicate UniqueKeys<Key, Val>(g: Layout<Key>, t: Table<Key, Val>)
    requires Fits(g, t)
  {
    forall p, q :: Live(t, p) && Live(t, q) && t.keys[p] == t.keys[q] ==> p == q
  }

  /** The invariant that the map relies on and never writes down. */
  ghost predicate Inv<Key, Val>(g: Layout<Key>, t: Table<Key, Val>, dup: bool) {
    && Fits(g, t)
    && Reachable(g, t)
    && TombstonesCover(g, t)
    && Fingerprinted(g, t)
    && (!dup ==> UniqueKeys(g, t))
  }

  // ---------------------------------------------------------------- matching a fingerprint

  /** The slots of one bucket that a kernel reports for fingerprint `s`, in increasing
      order: every exact match, and otherwise only slots that hold some entry. */
  ghost predicate Matches(k: seq<int>, s: int, found: seq<int>) {
    && (forall i :: 0 <= i < |found| ==> 0 <= found[i] < |k| && IsHash(k[found[i]]))
    && (forall i, j :: 0 <= i < j < |found| ==> found[i] < found[j])
    && (forall i :: 0 <= i < |k| && k[i] == s ==> i in found)
  }

  ghost predicate GoodMatcher(matcher: (seq<int>, int) -> seq<int>, K: nat) {
    forall k: seq<int>, s: int {:trigger matcher(k, s)} ::
      |k| == K && 0 <= s < 128 && (forall i :: 0 <= i < K ==> ValidState(k[i])) ==> Matches(k, s, matcher(k, s))
  }

  // ---------------------------------------------------------------- contents and counts

  function Entry<Key, Val>(t: Table<Key, Val>, p: int): Option<(Key, Val)>
    requires |t.states| == |t.keys| == |t.vals| && 0 <= p < |t.states|
  {
    if IsHash(t.states[p]) then Some((t.keys[p], t.vals[p])) else None
  }

  function View<Key, Val>(t: Table<Key, Val>): (v: seq<Option<(Key, Val)>>)
    requires |t.states| == |t.keys| == |t.vals|
  {
    seq(|t.states|, p requires 0 <= p < |t.states| => Entry(t, p))
  }

  /** The entries of the table, with multiplicity. */
  ghost function Bag<Key, Val>(t: Table<Key, Val>): multiset<Option<(Key, Val)>>
    requires |t.states| == |t.keys| == |t.vals|
  {
    multiset(View(t))[None := 0]
  }

  ghost function Count(states: seq<int>, s: int): nat {
    multiset(states)[s]
  }

  /** Overwriting one slot replaces one entry of the bag and moves one unit of the counts. */
  lemma OneSlot<Key, Val>(t: Table<Key, Val>, u: Table<Key, Val>, p: int)
    requires |t.states| == |t.keys| == |t.vals| == |u.states| == |u.keys| == |u.vals|
    requires 0 <= p < |t.states|
    requires u.states == t.states[p := u.states[p]]
    requires forall q :: 0 <= q < |t.states| && q != p ==> Entry(u, q) == Entry(t, q)
    ensures multiset(View(u)) == multiset(View(t)) - multiset{Entry(t, p)} + multiset{Entry(u, p)}
    ensures multiset(u.states) == multiset(t.states) - multiset{t.states[p]} + multiset{u.states[p]}
  {
    assert View(u) == View(t)[p := Entry(u, p)];
    assert View(t)[p] == Entry(t, p);
    assert Entry(t, p) in multiset(View(t));
    assert t.states[p] in multiset(t.states);
  }

  // ---------------------------------------------------------------- single-slot steps

  ghost predicate HasEmpty<Key, Val>(g: Layout<Key>, t: Table<Key, Val>, b: int)
    requires Fits(g, t)
  {
    exists e :: EmptyAt(t, e) && g.bucket[e] == b
  }

  function SetState<Key, Val>(t: Table<Key, Val>, p: int, s: int): Table<Key, Val>
    requires 0 <= p < |t.states|
  {
    t.(states := t.states[p := s])
  }

  function Store<Key, Val>(g: Layout<Key>, t: Table<Key, Val>, q: int, key: Key, val: Val): Table<Key, Val>
    requires Fits(g, t) && 0 <= q < |t.states|
  {
    Table(t.states[q := g.finger(key)], t.keys[q := key], t.vals[q := val])
  }

  /** Erasing leaves an empty slot when the bucket already has one, and a tombstone otherwise. */
  ghost function Vacate<Key, Val>(g: Layout<Key>, t: Table<Key, Val>, p: int): Table<Key, Val>
    requires Fits(g, t) && 0 <= p < |t.states|
  {
    SetState(t, p, if HasEmpty(g, t, g.bucket[p]) then EMPTY else TOMBSTONE)
  }

  lemma BagUpdate<Key, Val>(t: Table<Key, Val>, u: Table<Key, Val>, p: int)
    requires |t.states| == |t.keys| == |t.vals| == |u.states| == |u.keys| == |u.vals|
    requires 0 <= p < |t.states|
    requires u.states == t.states[p := u.states[p]]
    requires forall q :: 0 <= q < |t.states| && q != p ==> Entry(u, q) == Entry(t, q)
    ensures Live(t, p) ==> Entry(t, p) in Bag(t)
    ensures Live(u, p) && !Live(t, p) ==> Bag(u) == Bag(t) + multiset{Entry(u, p)}
    ensures Live(t, p) && !Live(u, p) ==> Bag(u) == Bag(t) - multiset{Entry(t, p)}
    ensures !Live(t, p) && !Live(u, p) ==> Bag(u) == Bag(t)
  {
    OneSlot(t, u, p);
    assert View(t)[p] == Entry(t, p);
    assert Entry(t, p) in multiset(View(t));
  }

  lemma CountUpdate(states: seq<int>, p: int, s: int)
    requires 0 <= p < |states|
    ensures forall x :: Count(states[p := s], x)
                        == Count(states, x) - (if states[p] == x then 1 else 0) + (if s == x then 1 else 0)
  {
    assert states[p] in multiset(states);
  }

  /** A key stored no later on its path than the first empty slot keeps the invariant. */
  lemma StoreKeeps<Key(!new), Val>(g: Layout<Key>, t: Table<Key, Val>, dup: bool, q: int, key: Key, val: Val)
    requires GoodLayout(g) && Inv(g, t, dup)
    requires 0 <= q < |t.states| && !Live(t, q)
    requires forall e :: EmptyAt(t, e) ==> g.rank(key, q) <= g.rank(key, e)
    requires !dup ==> forall p :: Live(t, p) ==> t.keys[p] != key
    ensures Inv(g, Store(g, t, q, key, val), dup)
    ensures Bag(Store(g, t, q, key, val)) == Bag(t) + multiset{Some((key, val))}
  {
    var u := Store(g, t, q, key, val);
    BagUpdate(t, u, q);
    forall p, e | Live(u, p) && EmptyAt(u, e)
      ensures g.rank(u.keys[p], p) <= g.rank(u.keys[p], e)
    {
      assert EmptyAt(t, e);
      if p != q { assert Live(t, p); }
    }
    forall p | Live(u, p) ensures u.states[p] == g.finger(u.keys[p]) {
      if p != q { assert Live(t, p); }
    }
    forall p, e | TombAt(u, p) && EmptyAt(u, e) ensures g.bucket[p] != g.bucket[e] {
      assert TombAt(t, p) && EmptyAt(t, e);
    }
    if !dup {
      forall p, p' | Live(u, p) && Live(u, p') && u.keys[p] == u.keys[p'] ensures p == p' {
        if p != q { assert Live(t, p); }
        if p' != q { assert Live(t, p'); }
      }
    }
  }

  /** Erasing one entry keeps the invariant and removes exactly that entry. */
  lemma VacateKeeps<Key(!new), Val>(g: Layout<Key>, t: Table<Key, Val>, dup: bool, p: int)
    requires GoodLayout(g) && Inv(g, t, dup) && Live(t, p)
    ensures Inv(g, Vacate(g, t, p), dup)
    ensures Entry(t, p) in Bag(t)
    ensures Bag(Vacate(g, t, p)) == Bag(t) - multiset{Entry(t, p)}
  {
    hide GoodLayout;
    var u := Vacate(g, t, p);
    BagUpdate(t, u, p);
    forall l, e | Live(u, l) && EmptyAt(u, e)
      ensures g.rank(u.keys[l], l) <= g.rank(u.keys[l], e)
    {
      assert Live(t, l);
      if e == p {
        var e' :| EmptyAt(t, e') && g.bucket[e'] == g.bucket[p];
        SameBucketSameRank(g, u.keys[l], e', e);
      } else {
        assert EmptyAt(t, e);
      }
    }
    forall l, e | TombAt(u, l) && EmptyAt(u, e) ensures g.bucket[l] != g.bucket[e] {
      if e == p {
        var e' :| EmptyAt(t, e') && g.bucket[e'] == g.bucket[p];
        assert TombAt(t, l);
      } else if l != p {
        assert TombAt(t, l) && EmptyAt(t, e);
      } else {
        assert EmptyAt(t, e);
      }
    }
    forall l | Live(u, l) ensures u.states[l] == g.finger(u.keys[l]) {
      assert Live(t, l);
    }
    if !dup {
      forall l, l' | Live(u, l) && Live(u, l') && u.keys[l] == u.keys[l'] ensures l == l' {
        assert Live(t, l) && Live(t, l');
      }
    }
  }
}
