/** Copying the entries of one table into another, slot by slot, as `resize_` does, and the
    relation between the number of entries and the two counters. */
module Rebuild {
  import opened Slots
  import opened Probing
  import opened Listing

  /** The entries of the first `n` slots. */
  ghost function Prefix<Key, Val>(t: Table<Key, Val>, n: nat): multiset<Option<(Key, Val)>>
    requires |t.states| == |t.keys| == |t.vals| && n <= |t.states|
  {
    multiset(View(t)[..n])[None := 0]
  }

  lemma PrefixStep<Key, Val>(t: Table<Key, Val>, n: nat)
    requires |t.states| == |t.keys| == |t.vals| && n < |t.states|
    ensures Prefix(t, n + 1) == if Live(t, n) then Prefix(t, n) + multiset{Some((t.keys[n], t.vals[n]))}
            else Prefix(t, n)
  {
    assert View(t)[..n + 1] == View(t)[..n] + [Entry(t, n)];
  }

  lemma PrefixAll<Key, Val>(t: Table<Key, Val>)
    requires |t.states| == |t.keys| == |t.vals|
    ensures Prefix(t, |t.states|) == Bag(t)
  {
    assert View(t)[..|t.states|] == View(t);
  }

  lemma PrefixHas<Key, Val>(t: Table<Key, Val>, n: nat, x: Option<(Key, Val)>) returns (q: nat)
    requires |t.states| == |t.keys| == |t.vals| && n <= |t.states| && x in Prefix(t, n)
    ensures q < n && Live(t, q) && Entry(t, q) == x
  {
    assert x in View(t)[..n];
    q :| 0 <= q < n && View(t)[q] == x;
  }

  lemma {:induction false} PrefixGrows<Key, Val>(t: Table<Key, Val>, n: nat, m: nat)
    requires |t.states| == |t.keys| == |t.vals| && n <= m <= |t.states|
    ensures |Prefix(t, n)| <= |Prefix(t, m)|
    decreases m
  {
    hide Prefix, View;
    if n < m {
      PrefixGrows(t, n, m - 1);
      PrefixStep(t, m - 1);
    }
  }

  ghost function CountBelow(states: seq<int>, s: int, n: nat): nat
    requires n <= |states|
  {
    multiset(states[..n])[s]
  }

  lemma CountBelowStep(states: seq<int>, s: int, n: nat)
    requires n < |states|
    ensures CountBelow(states, s, n + 1) == CountBelow(states, s, n) + (if states[n] == s then 1 else 0)
  {
    assert states[..n + 1] == states[..n] + [states[n]];
  }

  lemma NoneBelow<Key, Val>(t: Table<Key, Val>)
    requires |t.states| == |t.keys| == |t.vals|
    ensures Prefix(t, 0) == multiset{} && CountBelow(t.states, EMPTY, 0) == 0 == CountBelow(t.states, TOMBSTONE, 0)
  {
  }

  lemma {:induction false} SizeBelow<Key, Val>(t: Table<Key, Val>, n: nat)
    requires |t.states| == |t.keys| == |t.vals| && n <= |t.states|
    requires forall p :: 0 <= p < |t.states| ==> ValidState(t.states[p])
    ensures |Prefix(t, n)| + CountBelow(t.states, EMPTY, n) + CountBelow(t.states, TOMBSTONE, n) == n
  {
    hide Prefix, CountBelow, View;
    NoneBelow(t);
    if n > 0 {
      SizeBelow(t, n - 1);
      PrefixStep(t, n - 1);
      CountBelowStep(t.states, EMPTY, n - 1);
      CountBelowStep(t.states, TOMBSTONE, n - 1);
    }
  }

  /** `size`: what the two counters leave is the number of entries. */
  lemma Size<Key, Val>(t: Table<Key, Val>)
    requires |t.states| == |t.keys| == |t.vals|
    requires forall p :: 0 <= p < |t.states| ==> ValidState(t.states[p])
    ensures |Bag(t)| + Count(t.states, EMPTY) + Count(t.states, TOMBSTONE) == |t.states|
  {
    SizeBelow(t, |t.states|);
    PrefixAll(t);
    assert t.states[..|t.states|] == t.states;
  }

  /** `u` holds the entries of the first `n` slots of `t` and no tombstone. */
  ghost predicate Copied<Key(!new), Val>(g: Layout<Key>, u: Table<Key, Val>, dup: bool, t: Table<Key, Val>, n: nat)
    requires |t.states| == |t.keys| == |t.vals|
  {
    && n <= |t.states|
    && Inv(g, u, dup)
    && Bag(u) == Prefix(t, n)
    && Count(u.states, TOMBSTONE) == 0
  }

  lemma {:induction false} AllEmptyCounts(states: seq<int>, n: nat)
    requires n <= |states| && forall p :: 0 <= p < |states| ==> states[p] == EMPTY
    ensures CountBelow(states, EMPTY, n) == n && CountBelow(states, TOMBSTONE, n) == 0
  {
    if n > 0 {
      AllEmptyCounts(states, n - 1);
      CountBelowStep(states, EMPTY, n - 1);
      CountBelowStep(states, TOMBSTONE, n - 1);
    }
  }

  /** A table of empty slots keeps the invariant and holds nothing. */
  lemma AllEmpty<Key(!new), Val>(g: Layout<Key>, u: Table<Key, Val>, dup: bool)
    requires Fits(g, u) && forall p :: 0 <= p < |u.states| ==> u.states[p] == EMPTY
    ensures Inv(g, u, dup) && Bag(u) == multiset{}
    ensures Count(u.states, EMPTY) == |u.states| && Count(u.states, TOMBSTONE) == 0
  {
    AllEmptyCounts(u.states, |u.states|);
    assert u.states[..|u.states|] == u.states;
    Size(u);
  }

  lemma StartCopy<Key(!new), Val>(g: Layout<Key>, u: Table<Key, Val>, dup: bool, t: Table<Key, Val>)
    requires |t.states| == |t.keys| == |t.vals| && Inv(g, u, dup) && Bag(u) == multiset{}
             && Count(u.states, TOMBSTONE) == 0
    ensures Copied(g, u, dup, t, 0)
  {
    NoneBelow(t);
  }

  lemma BagHas<Key, Val>(t: Table<Key, Val>, p: int)
    requires |t.states| == |t.keys| == |t.vals| && Live(t, p)
    ensures Some((t.keys[p], t.vals[p])) in Bag(t)
  {
    assert View(t)[p] == Entry(t, p);
    assert Entry(t, p) in View(t);
  }

  lemma HoldsInBag<Key, Val>(t: Table<Key, Val>, key: Key)
    requires |t.states| == |t.keys| == |t.vals|
    ensures Holds(t, key) <==> exists v: Val :: Some((key, v)) in Bag(t)
  {
    if Holds(t, key) {
      var p :| Live(t, p) && t.keys[p] == key;
      BagHas(t, p);
    }
    if v: Val :| Some((key, v)) in Bag(t) {
      PrefixAll(t);
      var q := PrefixHas(t, |t.states|, Some((key, v)));
      assert Live(t, q) && t.keys[q] == key;
    }
  }

  lemma SameBagSameKeys<Key, Val>(t: Table<Key, Val>, u: Table<Key, Val>, key: Key)
    requires |t.states| == |t.keys| == |t.vals| && |u.states| == |u.keys| == |u.vals|
    requires Bag(t) == Bag(u)
    ensures Holds(t, key) <==> Holds(u, key)
  {
    HoldsInBag(t, key);
    HoldsInBag(u, key);
  }

  /** Overwriting the value of a live slot touches nothing but that entry. */
  lemma AssignKeeps<Key(!new), Val>(g: Layout<Key>, t: Table<Key, Val>, dup: bool, p: int, val: Val)
    requires Inv(g, t, dup) && Live(t, p)
    ensures var u := t.(vals := t.vals[p := val]);
      Inv(g, u, dup) && Bag(u) == Bag(t) - multiset{Some((t.keys[p], t.vals[p]))} + multiset{Some((t.keys[p], val))}
    ensures Some((t.keys[p], t.vals[p])) in Bag(t)
  {
    hide Bag;
    var u := t.(vals := t.vals[p := val]);
    AssignBag(t, p, val);
    BagHas(t, p);
    forall q | Live(u, q) ensures Live(t, q) {}
    forall q | EmptyAt(u, q) ensures EmptyAt(t, q) {}
    forall q | TombAt(u, q) ensures TombAt(t, q) {}
  }

  lemma AssignBag<Key, Val>(t: Table<Key, Val>, p: int, val: Val)
    requires |t.states| == |t.keys| == |t.vals| && Live(t, p)
    ensures var u := t.(vals := t.vals[p := val]);
      Bag(u) == Bag(t) - multiset{Some((t.keys[p], t.vals[p]))} + multiset{Some((t.keys[p], val))}
  {
    var u := t.(vals := t.vals[p := val]);
    OneSlot(t, u, p);
    assert View(t)[p] == Entry(t, p);
    assert Entry(t, p) in multiset(View(t));
    assert Entry(t, p) == Some((t.keys[p], t.vals[p])) && Entry(u, p) == Some((t.keys[p], val));
  }

  lemma NotYetCopied<Key(!new), Val>(g: Layout<Key>, u: Table<Key, Val>, h: Layout<Key>, t: Table<Key, Val>, n: nat)
    requires Inv(h, t, false) && Copied(g, u, false, t, n) && Live(t, n)
    ensures !Holds(u, t.keys[n])
  {
    forall p | Live(u, p) ensures u.keys[p] != t.keys[n] {
      BagHas(u, p);
      var q := PrefixHas(t, n, Some((u.keys[p], u.vals[p])));
      assert Live(t, q) && t.keys[q] == u.keys[p];
    }
  }

  lemma CopyStep<Key(!new), Val>(g: Layout<Key>, u: Table<Key, Val>, dup: bool, h: Layout<Key>, t: Table<Key, Val>,
                                 n: nat, q: int)
    requires GoodLayout(g) && Inv(h, t, dup) && Copied(g, u, dup, t, n) && Live(t, n)
    requires FirstFreeSlot(g, u, t.keys[n], q)
    ensures Fits(g, u) && Copied(g, Store(g, u, q, t.keys[n], t.vals[n]), dup, t, n + 1)
  {
    hide Bag, Prefix, FirstFreeSlot, Reachable, TombstonesCover, Holds, GoodLayout, Fingerprinted, Count;
    if !dup { NotYetCopied(g, u, h, t, n); }
    StillNoTombstone(g, u, t.keys[n], q);
    PlaceKeeps(g, u, dup, q, t.keys[n], t.vals[n]);
    PrefixStep(t, n);
  }

  lemma StillNoTombstone<Key(!new), Val>(g: Layout<Key>, u: Table<Key, Val>, key: Key, q: int)
    requires GoodLayout(g) && Fits(g, u) && FirstFreeSlot(g, u, key, q) && Count(u.states, TOMBSTONE) == 0
    ensures Count(u.states[q := g.finger(key)], TOMBSTONE) == 0
  {
    CountUpdate(u.states, q, g.finger(key));
    assert 0 <= g.finger(key);
  }

  lemma CopySkip<Key(!new), Val>(g: Layout<Key>, u: Table<Key, Val>, dup: bool, t: Table<Key, Val>, n: nat)
    requires |t.states| == |t.keys| == |t.vals| && n < |t.states| && Copied(g, u, dup, t, n) && !Live(t, n)
    ensures Copied(g, u, dup, t, n + 1)
  {
    hide Bag, Prefix, Inv;
    PrefixStep(t, n);
  }

  // Where the entries go.

  /** `src` says from which of the first `n` slots each entry comes.  Each is in the first slot of its path that
      entries of earlier slots have left to it. */
  ghost predicate InOldOrder<Key(!new), Val>(g: Layout<Key>, u: Table<Key, Val>, t: Table<Key, Val>, src: seq<int>,
                                             n: nat) {
    && |t.states| == |t.keys| == |t.vals| && |u.states| == |u.keys| == |u.vals| == |src| && n <= |t.states|
    && (forall q :: 0 <= q < |src| ==> (Live(u, q) <==> src[q] >= 0))
    && (forall q :: 0 <= q < |src| && src[q] >= 0 ==> src[q] < n && Live(t, src[q]) && Entry(u, q) == Entry(t, src[q]))
    && (forall q, r :: 0 <= q < r < |src| && src[q] >= 0 ==> src[q] != src[r])
    && (forall p :: 0 <= p < n && Live(t, p) ==> p in src)
    && (forall q, x :: 0 <= q < |src| && 0 <= x < |src| && src[q] >= 0 && Earlier(g, u.keys[q], x, q) ==>
          0 <= src[x] < src[q])
  }

  /** `u` is what copying the entries of `t` in slot order makes. */
  ghost predicate Recopied<Key(!new), Val>(g: Layout<Key>, u: Table<Key, Val>, t: Table<Key, Val>) {
    |t.states| == |t.keys| == |t.vals| && exists src :: InOldOrder(g, u, t, src, |t.states|)
  }

  lemma OrderStart<Key(!new), Val>(g: Layout<Key>, u: Table<Key, Val>, t: Table<Key, Val>) returns (src: seq<int>)
    requires |t.states| == |t.keys| == |t.vals| && |u.states| == |u.keys| == |u.vals|
    requires forall p :: 0 <= p < |u.states| ==> u.states[p] == EMPTY
    ensures InOldOrder(g, u, t, src, 0)
  {
    src := seq(|u.states|, _ => -1);
  }

  lemma OrderSkip<Key(!new), Val>(g: Layout<Key>, u: Table<Key, Val>, t: Table<Key, Val>, src: seq<int>, n: nat)
    requires InOldOrder(g, u, t, src, n) && n < |t.states| && !Live(t, n)
    ensures InOldOrder(g, u, t, src, n + 1)
  {
  }

  lemma OrderStep<Key(!new), Val>(g: Layout<Key>, u: Table<Key, Val>, t: Table<Key, Val>, src: seq<int>, n: nat, q: int)
    requires GoodLayout(g) && Fits(g, u) && InOldOrder(g, u, t, src, n) && n < |t.states| && Live(t, n)
    requires FirstFreeSlot(g, u, t.keys[n], q)
    ensures InOldOrder(g, Store(g, u, q, t.keys[n], t.vals[n]), t, src[q := n], n + 1)
  {
    hide GoodLayout;
    var v, s := Store(g, u, q, t.keys[n], t.vals[n]), src[q := n];
    Finger(g, t.keys[n]);
    assert !Live(u, q) && src[q] < 0;
    forall r | 0 <= r < |s| ensures Live(v, r) <==> s[r] >= 0 { assert r != q ==> (Live(u, r) <==> src[r] >= 0); }
    forall r | 0 <= r < |s| && s[r] >= 0 ensures s[r] < n + 1 && Live(t, s[r]) && Entry(v, r) == Entry(t, s[r]) {
      if r != q { assert Entry(u, r) == Entry(t, src[r]); }
    }
    forall x, y | 0 <= x < y < |s| && s[x] >= 0 ensures s[x] != s[y] {
      if x != q && y != q { assert src[x] == s[x] && src[y] == s[y]; }
    }
    forall p | 0 <= p < n + 1 && Live(t, p) ensures p in s {
      if p == n { assert s[q] == p; } else { StillThere(src, q, n, p); }
    }
    forall r, x | 0 <= r < |s| && 0 <= x < |s| && s[r] >= 0 && Earlier(g, v.keys[r], x, r) ensures 0 <= s[x] < s[r] {
      if r == q {
        assert IsHash(u.states[x]) && Live(u, x) && x != q;
      } else {
        assert 0 <= src[x] < src[r];
      }
    }
  }

  lemma Finger<Key(!new)>(g: Layout<Key>, k: Key)
    requires GoodLayout(g)
    ensures 0 <= g.finger(k) < 128
  {
  }

  lemma OrderSize<Key(!new), Val>(g: Layout<Key>, u: Table<Key, Val>, t: Table<Key, Val>, src: seq<int>, n: nat)
    requires InOldOrder(g, u, t, src, n)
    ensures |src| == |u.states|
  {
  }

  lemma OrderDone<Key(!new), Val>(g: Layout<Key>, u: Table<Key, Val>, t: Table<Key, Val>, src: seq<int>)
    requires |t.states| == |t.keys| == |t.vals| && InOldOrder(g, u, t, src, |t.states|)
    ensures Recopied(g, u, t)
  {
  }

  lemma StillThere(src: seq<int>, q: int, n: int, p: int)
    requires 0 <= q < |src| && src[q] < 0 <= p && p in src
    ensures p in src[q := n]
  {
    var i :| 0 <= i < |src| && src[i] == p;
    assert src[q := n][i] == p;
  }

  /** Before the copy is complete the new table has room. */
  lemma CopyRoom<Key(!new), Val>(g: Layout<Key>, u: Table<Key, Val>, dup: bool, t: Table<Key, Val>, n: nat)
                                 returns (e: int)
    requires |t.states| == |t.keys| == |t.vals| && Copied(g, u, dup, t, n)
    requires |Bag(t)| < |u.states|
    ensures EmptyAt(u, e)
  {
    PrefixGrows(t, n, |t.states|);
    PrefixAll(t);
    Size(u);
    e := SomeEmpty(u);
  }

  lemma CopyDone<Key(!new), Val>(g: Layout<Key>, u: Table<Key, Val>, dup: bool, t: Table<Key, Val>)
    requires |t.states| == |t.keys| == |t.vals| && Copied(g, u, dup, t, |t.states|)
    ensures Bag(u) == Bag(t) && Inv(g, u, dup)
    ensures Count(u.states, TOMBSTONE) == 0 && Count(u.states, EMPTY) == |u.states| - |Bag(t)|
  {
    PrefixAll(t);
    Size(u);
  }
}
