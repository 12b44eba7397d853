/** The finite map that a table without duplicates stands for, and what the operations do
    to it. */
module Dictionary {
  import opened Slots
  import opened Probing
  import opened Rebuild
  import opened Sifting

  /** `m` is the map whose entries are exactly those of the bag, each once. */
  ghost predicate Represents<Key(!new), Val(!new)>(m: map<Key, Val>, b: multiset<Option<(Key, Val)>>) {
    && b[None] == 0 && |b| == |m|
    && (forall k: Key, v: Val {:trigger Some((k, v))} :: b[Some((k, v))] == if k in m && m[k] == v then 1 else 0)
  }

  lemma SameMap<Key(!new), Val(!new)>(m: map<Key, Val>, n: map<Key, Val>, b: multiset<Option<(Key, Val)>>)
    requires Represents(m, b) && Represents(n, b)
    ensures m == n
  {
    forall k | k in m ensures k in n && n[k] == m[k] { assert b[Some((k, m[k]))] == 1; }
    forall k | k in n ensures k in m && m[k] == n[k] { assert b[Some((k, n[k]))] == 1; }
  }

  lemma SameBag<Key(!new), Val(!new)>(m: map<Key, Val>, b: multiset<Option<(Key, Val)>>,
                                      c: multiset<Option<(Key, Val)>>)
    requires Represents(m, b) && Represents(m, c)
    ensures b == c
  {
    forall x: Option<(Key, Val)> ensures b[x] == c[x] {
      if x.Some? { assert x == Some((x.value.0, x.value.1)); }
    }
  }

  lemma EmptyMap<Key(!new), Val(!new)>()
    ensures Represents<Key, Val>(map[], multiset{})
  {
  }

  lemma AddEntry<Key(!new), Val(!new)>(m: map<Key, Val>, b: multiset<Option<(Key, Val)>>, k: Key, v: Val)
    requires Represents(m, b) && k !in m
    ensures Represents(m[k := v], b + multiset{Some((k, v))})
  {
    assert m[k := v].Keys == m.Keys + {k};
    assert |m[k := v]| == |m| + 1;
  }

  lemma MapSize<Key, Val>(m: map<Key, Val>)
    ensures |m| == |m.Keys|
  {
  }

  lemma RemoveEntry<Key(!new), Val(!new)>(m: map<Key, Val>, b: multiset<Option<(Key, Val)>>, k: Key)
    requires Represents(m, b) && k in m
    ensures Represents(m - {k}, b - multiset{Some((k, m[k]))})
  {
    var n := m - {k};
    assert n.Keys == m.Keys - {k};
    assert |n| == |m| - 1 by { MapSize(n); MapSize(m); }
    var c := b - multiset{Some((k, m[k]))};
    forall x: Key, v: Val ensures c[Some((x, v))] == if x in n && n[x] == v then 1 else 0 {
      assert b[Some((x, v))] == if x in m && m[x] == v then 1 else 0;
    }
    assert b[Some((k, m[k]))] == 1;
  }

  /** What an entry of the bag says about the map. */
  lemma EntryOf<Key(!new), Val(!new)>(m: map<Key, Val>, b: multiset<Option<(Key, Val)>>, k: Key, v: Val)
    requires Represents(m, b)
    ensures Some((k, v)) in b <==> k in m && m[k] == v
  {
  }

  lemma HoldsIsIn<Key(!new), Val(!new)>(t: Table<Key, Val>, m: map<Key, Val>, k: Key)
    requires |t.states| == |t.keys| == |t.vals| && Represents(m, Bag(t))
    ensures Holds(t, k) <==> k in m
  {
    HoldsInBag(t, k);
    if k in m { EntryOf(m, Bag(t), k, m[k]); }
    if v :| Some((k, v)) in Bag(t) { EntryOf(m, Bag(t), k, v); }
  }

  lemma LiveIsEntry<Key(!new), Val(!new)>(t: Table<Key, Val>, m: map<Key, Val>, p: int)
    requires |t.states| == |t.keys| == |t.vals| && Represents(m, Bag(t)) && Live(t, p)
    ensures t.keys[p] in m && m[t.keys[p]] == t.vals[p]
  {
    BagHas(t, p);
    EntryOf(m, Bag(t), t.keys[p], t.vals[p]);
  }

  // ---------------------------------------------------------------- the map of a table

  ghost function PrefixMap<Key(!new), Val>(t: Table<Key, Val>, n: nat): map<Key, Val>
    requires |t.states| == |t.keys| == |t.vals| && n <= |t.states|
  {
    if n == 0 then map[]
    else if Live(t, n - 1) then PrefixMap(t, n - 1)[t.keys[n - 1] := t.vals[n - 1]]
    else PrefixMap(t, n - 1)
  }

  /** Slot by slot, later slots winning; without duplicates none ever wins over another. */
  ghost function AsMap<Key(!new), Val>(t: Table<Key, Val>): map<Key, Val>
    requires |t.states| == |t.keys| == |t.vals|
  {
    PrefixMap(t, |t.states|)
  }

  lemma {:induction false} PrefixRepresents<Key(!new), Val(!new)>(g: Layout<Key>, t: Table<Key, Val>, n: nat)
    requires Inv(g, t, false) && n <= |t.states|
    ensures Represents(PrefixMap(t, n), Prefix(t, n))
  {
    hide Represents, Prefix, Reachable, TombstonesCover, Fingerprinted;
    if n == 0 {
      NoneBelow(t);
      EmptyMap<Key, Val>();
    } else {
      PrefixRepresents(g, t, n - 1);
      PrefixStep(t, n - 1);
      if Live(t, n - 1) {
        NewKey(g, t, n - 1);
        AddEntry(PrefixMap(t, n - 1), Prefix(t, n - 1), t.keys[n - 1], t.vals[n - 1]);
      }
    }
  }

  lemma AbsentFromPrefix<Key(!new), Val(!new)>(t: Table<Key, Val>, n: nat, k: Key)
    requires |t.states| == |t.keys| == |t.vals| && n <= |t.states|
    requires forall q :: 0 <= q < n && Live(t, q) ==> t.keys[q] != k
    ensures forall v: Val :: Some((k, v)) !in Prefix(t, n)
  {
    forall v: Val ensures Some((k, v)) !in Prefix(t, n) {
      if Some((k, v)) in Prefix(t, n) { var q := PrefixHas(t, n, Some((k, v))); }
    }
  }

  lemma NewKey<Key(!new), Val(!new)>(g: Layout<Key>, t: Table<Key, Val>, n: nat)
    requires Inv(g, t, false) && n < |t.states| && Live(t, n) && Represents(PrefixMap(t, n), Prefix(t, n))
    ensures t.keys[n] !in PrefixMap(t, n)
  {
    hide PrefixMap, Prefix;
    var m, k := PrefixMap(t, n), t.keys[n];
    forall q | 0 <= q < n && Live(t, q) ensures t.keys[q] != k { assert t.keys[q] == k ==> q == n; }
    AbsentFromPrefix(t, n, k);
    if k in m { EntryOf(m, Prefix(t, n), k, m[k]); }
  }

  /** Every table without duplicates stands for a finite map. */
  lemma TableIsMap<Key(!new), Val(!new)>(g: Layout<Key>, t: Table<Key, Val>)
    requires Inv(g, t, false)
    ensures Represents(AsMap(t), Bag(t))
  {
    PrefixRepresents(g, t, |t.states|);
    PrefixAll(t);
  }

  // ---------------------------------------------------------------- selection

  ghost function Without<Key(!new), Val>(m: map<Key, Val>, drop: (Key, Val) -> bool): map<Key, Val> {
    map k | k in m && !drop(k, m[k]) :: m[k]
  }

  /** The bag after dropping selected entries represents the map without them. */
  lemma {:induction false} DropEntries<Key(!new), Val(!new)>(m: map<Key, Val>, b: multiset<Option<(Key, Val)>>,
                                                             c: multiset<Option<(Key, Val)>>,
                                                            drop: (Key, Val) -> bool)
    requires Represents(m, b) && Dropped(b, c, drop) && c[None] == 0
    ensures Represents(Without(m, drop), c)
    decreases |m|
  {
    if k :| k in m && drop(k, m[k]) {
      var n := m - {k};
      RemoveEntry(m, b, k);
      assert n.Keys == m.Keys - {k};
      assert |n| < |m| by { MapSize(n); MapSize(m); }
      DropEntries(n, b - multiset{Some((k, m[k]))}, c, drop);
      assert Without(n, drop) == Without(m, drop);
    } else {
      assert Without(m, drop) == m;
      forall x: Option<(Key, Val)> ensures c[x] == b[x] {
        if x.Some? {
          assert x == Some((x.value.0, x.value.1));
          EntryOf(m, b, x.value.0, x.value.1);
        }
      }
      assert b == c;
    }
  }

  lemma WithoutKey<Key(!new), Val(!new)>(m: map<Key, Val>, k: Key)
    ensures Without(m, IsKey(k)) == m - {k}
  {
  }

  // ---------------------------------------------------------------- comparing two tables

  /** The entries of the first `n` slots of `t` are entries of `u`. */
  ghost predicate ContainedBelow<Key(!new), Val(!new)>(t: Table<Key, Val>, u: Table<Key, Val>, n: int)
    requires |t.states| == |t.keys| == |t.vals| && |u.states| == |u.keys| == |u.vals|
  {
    forall p :: 0 <= p < n && Live(t, p) ==> Some((t.keys[p], t.vals[p])) in Bag(u)
  }

  lemma NothingContained<Key(!new), Val(!new)>(t: Table<Key, Val>, u: Table<Key, Val>)
    requires |t.states| == |t.keys| == |t.vals| && |u.states| == |u.keys| == |u.vals|
    ensures ContainedBelow(t, u, 0)
  {
  }

  lemma NoEntry<Key(!new), Val(!new)>(t: Table<Key, Val>, u: Table<Key, Val>, p: int)
    requires |t.states| == |t.keys| == |t.vals| && |u.states| == |u.keys| == |u.vals|
    requires ContainedBelow(t, u, p) && !Live(t, p)
    ensures ContainedBelow(t, u, p + 1)
  {
  }

  lemma SameEntry<Key(!new), Val(!new)>(t: Table<Key, Val>, u: Table<Key, Val>, p: int, q: int)
    requires |t.states| == |t.keys| == |t.vals| && |u.states| == |u.keys| == |u.vals|
    requires ContainedBelow(t, u, p) && Live(t, p) && Live(u, q) && u.keys[q] == t.keys[p] && u.vals[q] == t.vals[p]
    ensures ContainedBelow(t, u, p + 1)
  {
    hide Bag;
    BagHas(u, q);
  }

  lemma MissingKey<Key(!new), Val(!new)>(t: Table<Key, Val>, u: Table<Key, Val>, p: int)
    requires |t.states| == |t.keys| == |t.vals| && |u.states| == |u.keys| == |u.vals|
    requires Live(t, p) && !Holds(u, t.keys[p])
    ensures Bag(t) != Bag(u)
  {
    hide Bag;
    BagHas(t, p);
    HoldsInBag(u, t.keys[p]);
  }

  lemma OtherValue<Key(!new), Val(!new)>(g: Layout<Key>, t: Table<Key, Val>, u: Table<Key, Val>, p: int, q: int)
    requires |t.states| == |t.keys| == |t.vals| && Inv(g, u, false)
    requires Live(t, p) && Live(u, q) && u.keys[q] == t.keys[p] && u.vals[q] != t.vals[p]
    ensures Bag(t) != Bag(u)
  {
    hide Bag;
    BagHas(t, p);
    OnlyEntry(g, u, t.keys[p], q, t.vals[p]);
  }

  lemma SubBag<T(!new)>(a: multiset<T>, b: multiset<T>)
    requires |a| == |b| && forall x :: a[x] <= b[x]
    ensures a == b
  {
    assert a <= b;
    assert |b - a| == |b| - |a|;
    assert b == a + (b - a);
  }

  /** Without duplicates and with equally many entries, containment one way is equality. */
  lemma AllContained<Key(!new), Val(!new)>(g: Layout<Key>, t: Table<Key, Val>, u: Table<Key, Val>)
    requires Inv(g, t, false) && |u.states| == |u.keys| == |u.vals|
    requires ContainedBelow(t, u, |t.states|) && |Bag(t)| == |Bag(u)|
    ensures Bag(t) == Bag(u)
  {
    hide Bag, Reachable, TombstonesCover, Fingerprinted, UniqueKeys;
    TableIsMap(g, t);
    forall x: Option<(Key, Val)> ensures Bag(t)[x] <= Bag(u)[x] {
      if x in Bag(t) {
        PrefixAll(t);
        assert x != None;
        assert x == Some((x.value.0, x.value.1));
        var p := PrefixHas(t, |t.states|, x);
      }
    }
    SubBag(Bag(t), Bag(u));
  }

  /** Tables without duplicates hold the same entries exactly when they stand for the same map. */
  lemma SameEntriesSameMap<Key(!new), Val(!new)>(g: Layout<Key>, t: Table<Key, Val>, h: Layout<Key>, u: Table<Key, Val>)
    requires Inv(g, t, false) && Inv(h, u, false)
    ensures Bag(t) == Bag(u) <==> AsMap(t) == AsMap(u)
  {
    hide Bag, AsMap, Represents;
    TableIsMap(g, t);
    TableIsMap(h, u);
    if Bag(t) == Bag(u) { SameMap(AsMap(t), AsMap(u), Bag(t)); }
    if AsMap(t) == AsMap(u) { SameBag(AsMap(t), Bag(t), Bag(u)); }
  }
}
