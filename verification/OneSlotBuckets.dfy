/** Why scrubbing needs buckets of at least two slots: a run of a map with buckets of one slot
    in which scrubbing puts an empty slot in front of an entry.

    Eight slots, linear probing, `home(k) = k % 8`.  Keys 13, 5, 7 and 6 go to the slots 5, 6, 7
    and 0, the last one because it finds 6 and 7 taken; then 13 is erased.  The only pass of the
    scrub looks at slot 0 first and leaves it alone, then moves key 5 from slot 6 to slot 5.  One
    move ends the passes, and slot 6, now a bucket of tombstones, is made empty. */
module OneSlotBuckets {
  import opened ProbeSeq
  import opened Slots
  import opened Probing
  import opened Scrubbing
  import opened HashMap
  import opened Replay
  import ML = MapLayout

  /** The number of steps from the home of `key` to slot `p`. */
  function Distance(key: int, p: int): int { (p - key) % 8 }

  /** Everything that matters about that layout. */
  ghost predicate OneSlot(g: Layout<int>) {
    && GoodLayout(g) && g.K == 1 && g.n == 8 && |g.bucket| == 8
    && (forall p :: 0 <= p < 8 ==> g.bucket[p] == p)
    && (forall k, j :: 0 <= j < 8 ==> g.path(k, j) == (k + j) % 8)
    && (forall k, p :: 0 <= p < 8 ==> g.rank(k, p) == (p - k) % 8)
    && (forall k :: g.finger(k) == 0)
  }

  function Before(): seq<int> { [6, EMPTY, EMPTY, EMPTY, EMPTY, TOMBSTONE, 5, 7] }

  function Moved(): seq<int> { [6, EMPTY, EMPTY, EMPTY, EMPTY, 5, TOMBSTONE, 7] }

  lemma PathAt(k: int, j: nat)
    ensures BucketAt(Linear(0), k, 1, 8, j) == (k + j) % 8
  {
    AfterPsl(Linear(0), k, 1, j);
  }

  lemma WrapAround(k: int, p: int)
    requires 0 <= p < 8
    ensures (k + (p - k) % 8) % 8 == p
  {
  }

  lemma GeometryPath(k: int, j: nat)
    ensures Geometry(1).path(k, j) == (k + j) % 8
  {
    hide BucketAt;
    PathAt(k, j);
  }

  lemma GeometryRank(k: int, p: int)
    requires 0 <= p < 8
    ensures Geometry(1).rank(k, p) == (p - k) % 8
  {
    hide GoodLayout, Geometry;
    GeometryIsGood(1);
    GeometryPath(k, (p - k) % 8);
    WrapAround(k, p);
    BucketRange(Geometry(1), k, (p - k) % 8);
  }

  lemma GeometryBucket(p: int)
    requires 0 <= p < 8
    ensures |Geometry(1).bucket| == 8 && Geometry(1).bucket[p] == p
  {
    assert Geometry(1).bucket[p] == ML.BucketOf(1, p);
  }

  lemma GeometryIsOneSlot()
    ensures OneSlot(Geometry(1))
  {
    hide GoodLayout, Geometry;
    var g := Geometry(1);
    GeometryIsGood(1);
    forall p | 0 <= p < 8 ensures g.bucket[p] == p { GeometryBucket(p); }
    forall k, j | 0 <= j < 8 ensures g.path(k, j) == (k + j) % 8 { GeometryPath(k, j); }
    forall k, p | 0 <= p < 8 ensures g.rank(k, p) == (p - k) % 8 { GeometryRank(k, p); }
  }

  lemma FreeAt(g: Layout<int>, t: Table<int, int>, b: int)
    requires OneSlot(g) && Fits(g, t) && 0 <= b < 8
    ensures HasFree(g, t, b) <==> !IsHash(t.states[b])
  {
    hide GoodLayout;
    assert g.bucket[b] == b;
  }

  lemma FirstStays(g: Layout<int>, t: Table<int, int>)
    requires OneSlot(g) && Shows(t, Before())
    ensures Fits(g, t) && Target(g, t, 0) == 0 && StopPsl(g, t, 0) != 0
  {
    hide GoodLayout, HasFree;
    FreeAt(g, t, 6);
    FreeAt(g, t, 7);
    assert g.rank(6, 0) == 2 && g.path(6, 0) == 6 && g.path(6, 1) == 7;
    assert StopFrom(g, t, 0, 2) == 2;
    assert StopFrom(g, t, 0, 1) == 2;
  }

  /** The pass makes one move. */
  lemma ThePass(g: Layout<int>, t: Table<int, int>) returns (u: Table<int, int>, bits: nat)
    requires OneSlot(g) && Shows(t, Before())
    ensures Fits(g, t) && bits != 0 && PassFrom(g, t, 0, 0, 0) == Outcome(u, 1, bits)
    ensures Fits(g, u) && Shows(u, Moved())
  {
    hide GoodLayout, PassFrom, Target, StopPsl, Or;
    FirstStays(g, t);
    PassVisit(g, t, 0, 0, 0);
    bits := Or(0, StopPsl(g, t, 0));
    PassSkip(g, t, 1, 0, bits);
    PassSkip(g, t, 2, 0, bits);
    PassSkip(g, t, 3, 0, bits);
    PassSkip(g, t, 4, 0, bits);
    PassSkip(g, t, 5, 0, bits);
    u := PassMoves(g, t, Before(), 6, 5, 0, bits);
    assert Before()[6 := TOMBSTONE][5 := 5] == Moved();
    PassStays(g, u, 7, 1, bits);
    PassEnd(g, u, 8, 1, bits);
  }

  lemma DeadSlots(g: Layout<int>, u: Table<int, int>)
    requires OneSlot(g) && Shows(u, Moved())
    ensures Fits(g, u) && AllTombstones(g, u, g.bucket[6]) && !AllTombstones(g, u, g.bucket[0])
  {
    hide GoodLayout;
    assert u.states[0] != TOMBSTONE;
  }

  /** The entry of key 6 is there, behind an empty slot. */
  ghost predicate Hidden(g: Layout<int>, u: Table<int, int>) {
    && |u.states| == |u.keys|
    && Live(u, 0) && u.keys[0] == 6
    && EmptyAt(u, 6) && g.rank(6, 6) == 0 < g.rank(6, 0)
  }

  lemma ScrubHidesAnEntry(g: Layout<int>, t: Table<int, int>)
    requires OneSlot(g) && Shows(t, Before())
    ensures Fits(g, t) && Hidden(g, Scrubbed(g, t)) && !Inv(g, Scrubbed(g, t), false)
  {
    hide GoodLayout, PassFrom, Passes, PathSum;
    assert TombAt(t, 5);
    var u, bits := ThePass(g, t);
    PassesUnfold(g, t, 0);
    DeadSlots(g, u);
    var r := Scrubbed(g, t);
    assert r == ReclaimDead(g, u);
    assert g.rank(6, 6) == 0 && g.rank(6, 0) == 2;
    assert Live(r, 0) && EmptyAt(r, 6);
  }

  // ---------------------------------------------------------------- the run

  /** Inserts `key`, which ends up in slot `q`. */
  method Insert(m: Map<int, int>, key: int, ghost s: seq<int>, ghost n: int, ghost q: int)
    requires Ready(m, 1, false, s, n) && n > 1 && |s| == 8 && key >= 0 && key !in s && 0 <= q < 8 && s[q] == EMPTY
    requires forall p :: 0 <= p < 8 && s[p] < 0 ==> Distance(key, q) <= Distance(key, p)
    modifies m, m.states, m.keys, m.vals
    ensures Ready(m, 1, false, s[q := key], n - 1) && m.Repr() == old(m.Repr())
  {
    hide Ready, GoodLayout, Geometry;
    GeometryIsOneSlot();
    Distances(s, key, q);
    Add(m, key, 1, false, s, n, q);
  }

  lemma Distances(s: seq<int>, key: int, q: int)
    requires 0 <= q < 8
    ensures forall p :: 0 <= p < 8 && Distance(key, p) == Distance(key, q) ==> p == q
  {
    forall p | 0 <= p < 8 && Distance(key, p) == Distance(key, q) ensures p == q {
      WrapAround(key, p);
      WrapAround(key, q);
    }
  }

  function Filled(): seq<int> { [6, EMPTY, EMPTY, EMPTY, EMPTY, 13, 5, 7] }

  method Fill(m: Map<int, int>)
    requires Ready(m, 1, false, Blank(), 8)
    modifies m, m.states, m.keys, m.vals
    ensures Ready(m, 1, false, Filled(), 4) && m.Repr() == old(m.Repr())
  {
    hide Ready;
    Insert(m, 13, Blank(), 8, 5);
    var s1 := Blank()[5 := 13];
    Insert(m, 5, s1, 7, 6);
    var s2 := s1[6 := 5];
    Insert(m, 7, s2, 6, 7);
    var s3 := s2[7 := 7];
    Insert(m, 6, s3, 5, 0);
    assert s3[0 := 6] == Filled();
  }

  method EraseOne(m: Map<int, int>)
    requires Ready(m, 1, false, Filled(), 4)
    modifies m, m.states, m.keys, m.vals
    ensures Ready(m, 1, false, Before(), 4) && fresh(m.Repr() - old(m.Repr()))
  {
    hide Ready, GoodLayout, Geometry;
    GeometryIsOneSlot();
    Drop(m, 5, 1, false, Filled(), 4);
    assert Filled()[5 := TOMBSTONE] == Before();
  }

  /** A search that comes to the empty slot before the entry does not find it. */
  lemma Missed(g: Layout<int>, t: Table<int, int>, pos: int)
    requires OneSlot(g) && Fits(g, t) && Hidden(g, t)
    ensures !(IsFirst(g, t, 6, pos) && forall e :: EmptyAt(t, e) ==> g.rank(6, e) >= g.rank(6, pos))
  {
    hide GoodLayout;
    assert g.rank(6, 6) == 0 && EmptyAt(t, 6);
    forall p | 0 <= p < 8 && g.rank(6, p) <= 0 ensures p == 6 { WrapAround(6, p); }
  }

  /** Scrubs and then looks for 6. */
  method ScrubAndFind(m: Map<int, int>) returns (pos: int)
    requires Ready(m, 1, false, Before(), 4)
    modifies m, m.states, m.keys, m.vals
    ensures pos == -1 && m.Searchable() && Fits(m.layout, m.table) && Hidden(m.layout, m.table)
    ensures !m.Valid()
  {
    hide m.Valid, m.Searchable, GoodLayout, Geometry, Scrubbed, Inv, OneSlot, IsFirst, Hidden, EndsAt, NotBefore,
      BucketAt, After, Count, Bag;
    GeometryIsOneSlot();
    ghost var _ := m.Facts();
    ScrubHidesAnEntry(m.layout, m.table);
    var _ := m.Scrub();
    var probe;
    ghost var steps;
    pos, probe, steps := m.Search(6);
    ghost var _ := m.SearchFacts();
    Missed(m.layout, m.table, pos);
    NotValid(m);
  }

  lemma NotValid(m: Map<int, int>)
    requires !Inv(m.layout, m.table, false) && !m.flags.duplicates
    ensures !m.Valid()
  {
  }

  lemma IsHeld(m: Map<int, int>)
    requires Fits(m.layout, m.table) && Hidden(m.layout, m.table)
    ensures Holds(m.table, 6)
  {
  }

  /** The whole run, from the constructor to a search for 6, which does not find it. */
  method ScrubLosesAnEntry() returns (m: Map<int, int>, pos: int)
    ensures fresh(m) && m.conf == Settings(1) && m.flags == Flags(false, false, false)
    ensures m.Searchable() && Fits(m.layout, m.table) && Holds(m.table, 6) && pos == -1
    ensures !m.Valid()
  {
    hide Ready, m.Valid, m.Searchable, Hidden, Holds;
    m := New(1, false);
    ReadyFlags(m, 1, false, Blank(), 8);
    Fill(m);
    EraseOne(m);
    pos := ScrubAndFind(m);
    IsHeld(m);
  }

  // ---------------------------------------------------------------- the condition

  function Example(): Table<int, int> {
    Table([0, EMPTY, EMPTY, EMPTY, EMPTY, TOMBSTONE, 0, 0], [6, 0, 0, 0, 0, 0, 5, 7], [0, 0, 0, 0, 0, 0, 0, 0])
  }

  lemma ExampleIsValid(g: Layout<int>)
    requires OneSlot(g)
    ensures Inv(g, Example(), false) && Shows(Example(), Before())
  {
    hide GoodLayout;
    var t := Example();
    forall p, e | Live(t, p) && EmptyAt(t, e) ensures g.rank(t.keys[p], p) <= g.rank(t.keys[p], e) {
      assert (p == 0 || p == 6 || p == 7) && (e == 1 || e == 2 || e == 3 || e == 4);
    }
  }

  ghost predicate ScrubbedInv(g: Layout<int>, t: Table<int, int>, dup: bool) {
    GoodLayout(g) && Fits(g, t) && Inv(g, Scrubbed(g, t), dup)
  }

  /** Scrubbing keeps the invariant of every table with buckets of `K` slots. */
  ghost predicate ScrubSafe(K: nat) {
    forall g: Layout<int>, t: Table<int, int>, dup: bool ::
      GoodLayout(g) && g.K == K && Inv(g, t, dup) ==> ScrubbedInv(g, t, dup)
  }

  lemma WideBucketsAreSafe(K: nat)
    requires K >= 2
    ensures ScrubSafe(K)
  {
    hide GoodLayout, Inv, Scrubbed;
    forall g: Layout<int>, t: Table<int, int>, dup: bool | GoodLayout(g) && g.K == K && Inv(g, t, dup)
      ensures ScrubbedInv(g, t, dup) {
      InvFits(g, t, dup);
      ScrubKeeps(g, t, dup);
    }
  }

  lemma OneSlotBucketsAreNot()
    ensures !ScrubSafe(1)
  {
    hide GoodLayout, Inv, Scrubbed, OneSlot, Geometry, Before, Example;
    var g := Geometry(1);
    GeometryIsGood(1);
    GeometryIsOneSlot();
    ExampleIsValid(g);
    ScrubHidesAnEntry(g, Example());
    assert !ScrubbedInv(g, Example(), false);
  }

  /** Buckets of two slots or more: exactly then scrubbing is safe for every table. */
  lemma ScrubSafeExactlyForWideBuckets(K: nat)
    requires K >= 1
    ensures ScrubSafe(K) <==> K >= 2
  {
    hide ScrubSafe;
    if K >= 2 { WideBucketsAreSafe(K); } else { OneSlotBucketsAreNot(); }
  }
}
