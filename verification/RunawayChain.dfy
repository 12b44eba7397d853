/** A run of the map at the end of which the chain of `find_next_` calls does not stop by itself.

    Four buckets of two slots, linear probing, `home(k) = k`.  Keys 0, 0, 0, 2, 2, 4 and 6 fill
    all slots but the last one; the third 0 and the second 2 end up one bucket further.  One 0 is
    erased, the table is scrubbed, which brings the two back, and another 6 is inserted:

        bucket      0      2      4      6
        before    T 0    0 2    2 4    6 E      T tombstone, E empty
        scrubbed  0 0    2 2    E 4    6 E
        after     0 0    2 2    E 4    6 6

    From the position of 4, the last slot of its bucket, `find_next_` goes on to the next bucket
    without asking whether the one it leaves has an empty slot; no other one has. */
module RunawayChain {
  import opened Pow2
  import opened ProbeSeq
  import opened Slots
  import opened Probing
  import opened Scrubbing
  import opened Listing
  import opened HashMap
  import opened Replay
  import ML = MapLayout

  /** The number of buckets from the home of `k` to slot `p`. */
  function Steps(k: int, p: int): int {
    (p / 2 - k / 2) % 4
  }

  ghost predicate FourBuckets(g: Layout<int>) {
    && GoodLayout(g) && g.K == 2 && g.n == 4 && |g.bucket| == 8
    && (forall p :: 0 <= p < 8 ==> g.bucket[p] == 2 * (p / 2))
    && (forall k, p :: 0 <= k < 8 && 0 <= p < 8 ==> g.rank(k, p) == Steps(k, p))
    && (forall k :: g.finger(k) == 0)
  }

  // ---------------------------------------------------------------- the layout

  lemma BucketIs(p: int)
    requires 0 <= p < 8
    ensures |Geometry(2).bucket| == 8 && Geometry(2).bucket[p] == 2 * (p / 2)
  {
    assert Geometry(2).bucket[p] == ML.BucketOf(2, p);
  }

  lemma BucketOfStep(k: int, j: nat)
    ensures Masked(k + 2 * j, 2, 8) == 2 * ((k / 2 + j) % 4)
  {
    var m, r := k / 2 + j, k % 2;
    var a, b := m / 4, m % 4;
    assert k + 2 * j == 8 * a + (2 * b + r);
    DivMod(k + 2 * j, 8, a, 2 * b + r);
    DivMod(2 * b + r, 2, b, r);
  }

  lemma PathAt(k: int, j: nat)
    requires 0 <= k < 8 && j < 4
    ensures Geometry(2).path(k, j) == 2 * ((k / 2 + j) % 4)
  {
    hide Masked;
    BucketOfStep(k, j);
    AfterPsl(Linear(0), k, 2, j);
    assert BucketAt(Linear(0), k, 2, 8, j) == Masked(k + 2 * j, 2, 8);
  }

  lemma RankIs(k: int, p: int)
    requires 0 <= k < 8 && 0 <= p < 8
    ensures Geometry(2).rank(k, p) == Steps(k, p)
  {
    hide GoodLayout, Geometry;
    GeometryIsGood(2);
    PathAt(k, Steps(k, p));
    BucketIs(p);
    BucketRange(Geometry(2), k, Steps(k, p));
  }

  lemma GeometryIsFourBuckets()
    ensures FourBuckets(Geometry(2))
  {
    hide GoodLayout, Geometry, Steps;
    var g := Geometry(2);
    GeometryIsGood(2);
    forall p | 0 <= p < 8 ensures g.bucket[p] == 2 * (p / 2) { BucketIs(p); }
    forall k, p | 0 <= k < 8 && 0 <= p < 8 ensures g.rank(k, p) == Steps(k, p) { RankIs(k, p); }
  }

  // ---------------------------------------------------------------- scrubbing

  function Worn(): seq<int> { [TOMBSTONE, 0, 0, 2, 2, 4, 6, EMPTY] }

  function Clean(): seq<int> { [0, 0, 2, 2, EMPTY, 4, 6, EMPTY] }

  function HalfClean(): seq<int> { [0, 0, TOMBSTONE, 2, 2, 4, 6, EMPTY] }

  function Tidy(): seq<int> { [0, 0, 2, 2, TOMBSTONE, 4, 6, EMPTY] }

  lemma FirstMove(g: Layout<int>, t: Table<int, int>) returns (u: Table<int, int>)
    requires FourBuckets(g) && Shows(t, Worn())
    ensures Fits(g, t) && Fits(g, u) && PassFrom(g, t, 0, 0, 0) == PassFrom(g, u, 3, 1, 0) && Shows(u, HalfClean())
  {
    hide GoodLayout, PassFrom;
    PassSkip(g, t, 0, 0, 0);
    PassStays(g, t, 1, 0, 0);
    u := PassMoves(g, t, Worn(), 2, 0, 0, 0);
    assert Worn()[2 := TOMBSTONE][0 := 0] == HalfClean();
  }

  lemma SecondMove(g: Layout<int>, t: Table<int, int>) returns (u: Table<int, int>)
    requires FourBuckets(g) && Shows(t, HalfClean())
    ensures Fits(g, t) && Fits(g, u) && PassFrom(g, t, 3, 1, 0) == PassFrom(g, u, 5, 2, 0) && Shows(u, Tidy())
  {
    hide GoodLayout, PassFrom;
    PassStays(g, t, 3, 1, 0);
    u := PassMoves(g, t, HalfClean(), 4, 2, 1, 0);
    assert HalfClean()[4 := TOMBSTONE][2 := 2] == Tidy();
  }

  lemma AllAtHome(g: Layout<int>, u: Table<int, int>)
    requires FourBuckets(g) && Shows(u, Tidy())
    ensures forall l :: Live(u, l) ==> g.rank(u.keys[l], l) == 0
  {
  }

  lemma ScrubCleans(g: Layout<int>, t: Table<int, int>)
    requires FourBuckets(g) && Shows(t, Worn())
    ensures Fits(g, t) && Shows(Scrubbed(g, t), Clean()) && ScrubMoves(g, t) == 2
  {
    hide GoodLayout, PassFrom, Passes, PathSum, Steps;
    var t1 := FirstMove(g, t);
    var u := SecondMove(g, t1);
    AllAtHome(g, u);
    IdlePass(g, u, 5, 2);
    PassesUnfold(g, t, 0);
    IdlePass(g, u, 0, 0);
    PassesUnfold(g, u, 2);
    assert TombAt(t, 0);
    assert Scrubbed(g, t) == ReclaimAll(u);
  }

  // ---------------------------------------------------------------- the run

  /** Inserts `key`, which ends up in slot `q`. */
  method Insert(m: Map<int, int>, key: int, ghost s: seq<int>, ghost n: int, ghost q: int)
    requires Ready(m, 2, true, s, n) && n > 1 && |s| == 8 && 0 <= key < 8 && 0 <= q < 8 && s[q] == EMPTY
    requires forall p :: 0 <= p < 8 && s[p] < 0 ==>
               Steps(key, q) < Steps(key, p) || (Steps(key, q) == Steps(key, p) && q <= p)
    modifies m, m.states, m.keys, m.vals
    ensures Ready(m, 2, true, s[q := key], n - 1) && m.Repr() == old(m.Repr())
  {
    hide Ready, GoodLayout, Geometry, Steps;
    GeometryIsFourBuckets();
    Add(m, key, 2, true, s, n, q);
  }

  function Half(): seq<int> { [0, 0, 0, 2, EMPTY, EMPTY, EMPTY, EMPTY] }

  function Full(): seq<int> { [0, 0, 0, 2, 2, 4, 6, EMPTY] }

  method FillHalf(m: Map<int, int>)
    requires Ready(m, 2, true, Blank(), 8)
    modifies m, m.states, m.keys, m.vals
    ensures Ready(m, 2, true, Half(), 4) && m.Repr() == old(m.Repr())
  {
    hide Ready;
    Insert(m, 0, Blank(), 8, 0);
    var s1 := Blank()[0 := 0];
    Insert(m, 0, s1, 7, 1);
    var s2 := s1[1 := 0];
    Insert(m, 0, s2, 6, 2);
    var s3 := s2[2 := 0];
    Insert(m, 2, s3, 5, 3);
    assert s3[3 := 2] == Half();
  }

  method FillRest(m: Map<int, int>)
    requires Ready(m, 2, true, Half(), 4)
    modifies m, m.states, m.keys, m.vals
    ensures Ready(m, 2, true, Full(), 1) && m.Repr() == old(m.Repr())
  {
    hide Ready;
    Insert(m, 2, Half(), 4, 4);
    var s1 := Half()[4 := 2];
    Insert(m, 4, s1, 3, 5);
    var s2 := s1[5 := 4];
    Insert(m, 6, s2, 2, 6);
    assert s2[6 := 6] == Full();
  }

  method EraseOne(m: Map<int, int>)
    requires Ready(m, 2, true, Full(), 1)
    modifies m, m.states, m.keys, m.vals
    ensures Ready(m, 2, true, Worn(), 1) && fresh(m.Repr() - old(m.Repr()))
  {
    hide Ready, GoodLayout, Geometry;
    GeometryIsFourBuckets();
    Drop(m, 0, 2, true, Full(), 1);
    assert Full()[0 := TOMBSTONE] == Worn();
  }

  method ScrubIt(m: Map<int, int>)
    requires Ready(m, 2, true, Worn(), 1)
    modifies m, m.states, m.keys, m.vals
    ensures Ready(m, 2, true, Clean(), 2) && m.Repr() == old(m.Repr())
  {
    hide m.Valid, GoodLayout, Geometry, Scrubbed, Inv, Count;
    GeometryIsFourBuckets();
    ghost var _ := m.Facts();
    ghost var t := m.table;
    ScrubCleans(Geometry(2), t);
    var _ := m.Scrub();
    ghost var _ := m.Facts();
    TwoEmpty(m.table);
  }

  lemma TwoEmpty(t: Table<int, int>)
    requires Shows(t, Clean())
    ensures Count(t.states, EMPTY) == 2
  {
    assert t.states == [0, 0, 0, 0, EMPTY, 0, 0, EMPTY];
  }

  function Final(): seq<int> { [0, 0, 2, 2, EMPTY, 4, 6, 6] }

  method InsertAgain(m: Map<int, int>)
    requires Ready(m, 2, true, Clean(), 2)
    modifies m, m.states, m.keys, m.vals
    ensures Ready(m, 2, true, Final(), 1) && m.Repr() == old(m.Repr())
  {
    hide Ready;
    Insert(m, 6, Clean(), 2, 7);
    assert Clean()[7 := 6] == Final();
  }

  /** On the table the run ends with, slot 5 holds the only 4, and the chain runs away from there. */
  lemma OnlyFour(g: Layout<int>, t: Table<int, int>)
    requires FourBuckets(g) && Shows(t, Final())
    ensures forall p :: Live(t, p) && t.keys[p] == 4 <==> p == 5
    ensures RunsAway(g, t, 5)
  {
    hide GoodLayout, Steps;
    assert EmptyAt(t, 4) && g.bucket[4] == g.bucket[5];
    forall e | EmptyAt(t, e) ensures e == 4 {}
  }

  /** Looks for 4 and then for another one. */
  method Follow(m: Map<int, int>) returns (pos: int, r: Next)
    requires Ready(m, 2, true, Final(), 1)
    ensures pos == 5 && r.Exhausted? && m.Valid() && IsFirst(m.layout, m.table, 4, pos)
            && RunsAway(m.layout, m.table, pos)
  {
    hide m.Valid, GoodLayout, Geometry, Inv, RunsAway, Reached;
    GeometryIsFourBuckets();
    ghost var _ := m.Facts();
    ghost var g, t := m.layout, m.table;
    OnlyFour(g, t);
    var probe;
    ghost var steps;
    pos, probe, steps := m.FindFirst(4);
    assert Live(t, 5) && t.keys[5] == 4;
    LiveIsReached(g, t, true, 4, 5);
    r, probe := m.FindNext(pos, probe, 4);
  }

  /** The whole run, from the constructor to a call of `find_next_` that goes through all buckets
      without coming to its end. */
  method ChainRunsAway() returns (m: Map<int, int>, pos: int, r: Next)
    ensures fresh(m) && m.conf == Settings(2) && m.flags == Flags(true, false, false)
    ensures m.Valid() && IsFirst(m.layout, m.table, 4, pos) && RunsAway(m.layout, m.table, pos) && r.Exhausted?
  {
    hide Ready, m.Valid, RunsAway, IsFirst;
    m := New(2, true);
    ReadyFlags(m, 2, true, Blank(), 8);
    FillHalf(m);
    FillRest(m);
    EraseOne(m);
    ScrubIt(m);
    InsertAgain(m);
    pos, r := Follow(m);
  }
}
