/** Small maps of integers driven from the constructor on, to show that a table is one the
    code comes to.

    A sketch of such a map has one number to a slot: the key that the slot holds, or one of
    the two negative markers. */
module Replay {
  import opened Pow2
  import opened ProbeSeq
  import opened Slots
  import opened Probing
  import opened Scrubbing
  import opened Conf
  import opened HashMap
  import Matchers
  import ML = MapLayout

  /** Eight slots in buckets of `K`, at least one of them empty. */
  function Settings(K: nat): Sizing { Sizing(K, 8, 8, 4, 8, 4) }

  function Hash(): ML.Hashing<int> { ML.Hashing((k: int) => k, (k: int) => 0) }

  ghost function Geometry(K: nat): Layout<int>
    requires K > 0
  {
    ML.Make(Hash(), Linear(0), K, 8 / K, 8)
  }

  lemma SmallPowers()
    ensures IsPow2(1) && IsPow2(2) && IsPow2(4) && IsPow2(8)
  {
    assert Pow(0) == 1;
    assert Pow(1) == 2;
    assert Pow(2) == 4;
    assert Pow(3) == 8;
  }

  lemma SettingsAreGood(K: nat)
    requires K == 1 || K == 2
    ensures Settings(K).Good() && Settings(K).GrowThreshold(8) == 1 && Hash().Valid()
    ensures GoodMatcher(Matchers.FastMatcher(64), K)
  {
    hide GoodMatcher;
    SmallPowers();
    Matchers.EveryKernelWillDo(K, 64);
  }

  lemma GeometryIsGood(K: nat)
    requires K == 1 || K == 2
    ensures GoodLayout(Geometry(K)) && Geometry(K).K == K && Geometry(K).n == 8 / K && |Geometry(K).bucket| == 8
    ensures forall k :: Geometry(K).finger(k) == 0
  {
    hide GoodLayout;
    SmallPowers();
    ML.LayoutIsGood(Hash(), Linear(0), K, 8 / K);
  }

  ghost predicate Shows(t: Table<int, int>, s: seq<int>) {
    && |t.states| == |t.keys| == |t.vals| == |s|
    && (forall p :: 0 <= p < |s| ==> if s[p] >= 0 then t.states[p] == 0 && t.keys[p] == s[p] else t.states[p] == s[p])
  }

  /** `q` is the place of `key` by probe order alone. */
  ghost predicate FreeSpot(g: Layout<int>, s: seq<int>, key: int, q: int) {
    && 0 <= q < |s| && s[q] < 0
    && (forall p :: 0 <= p < |s| && s[p] < 0 ==>
      g.rank(key, q) < g.rank(key, p) || (g.rank(key, q) == g.rank(key, p) && q <= p))
  }

  lemma StoreShows(g: Layout<int>, t: Table<int, int>, s: seq<int>, q: int, key: int, val: int)
    requires Fits(g, t) && Shows(t, s) && 0 <= q < |s| && key >= 0 && g.finger(key) == 0
    ensures Shows(Store(g, t, q, key, val), s[q := key])
  {
  }

  lemma VacateShows(g: Layout<int>, t: Table<int, int>, s: seq<int>, p: int)
    requires Fits(g, t) && Shows(t, s) && 0 <= p < |s|
    requires forall e :: 0 <= e < |s| && s[e] == EMPTY ==> g.bucket[e] != g.bucket[p]
    ensures Shows(Vacate(g, t, p), s[p := TOMBSTONE]) && !HasEmpty(g, t, g.bucket[p])
  {
    forall e | EmptyAt(t, e) ensures g.bucket[e] != g.bucket[p] {}
  }

  // ---------------------------------------------------------------- the map

  /** A map whose table is the one sketched, with `n` empty slots. */
  ghost predicate Ready(m: Map<int, int>, K: nat, dup: bool, s: seq<int>, n: int)
    requires K > 0
    reads m, m.states, m.keys, m.vals
  {
    && m.Valid() && m.conf == Settings(K) && m.flags == Flags(dup, false, false) && m.layout == Geometry(K)
    && m.states.Length == |s| == 8 && Shows(m.table, s) && m.numEmpty == n
  }

  lemma ReadyFlags(m: Map<int, int>, K: nat, dup: bool, s: seq<int>, n: int)
    requires K > 0 && Ready(m, K, dup, s, n)
    ensures m.conf == Settings(K) && m.flags == Flags(dup, false, false)
  {
  }

  function Blank(): seq<int> { [EMPTY, EMPTY, EMPTY, EMPTY, EMPTY, EMPTY, EMPTY, EMPTY] }

  method New(K: nat, dup: bool) returns (m: Map<int, int>)
    requires K == 1 || K == 2
    ensures fresh(m) && fresh(m.Repr()) && Ready(m, K, dup, Blank(), 8)
  {
    hide GoodLayout, GoodMatcher, Inv;
    SettingsAreGood(K);
    m := new Map(Settings(K), Flags(dup, false, false), Hash(), Linear(0), Matchers.FastMatcher(64));
  }

  /** Inserts `key`, which ends up in slot `q`. */
  method Add(m: Map<int, int>, key: int, ghost K: nat, ghost dup: bool, ghost s: seq<int>, ghost n: int, ghost q: int)
    requires (K == 1 || K == 2) && Ready(m, K, dup, s, n) && n > 1
    requires key >= 0 && FreeSpot(Geometry(K), s, key, q) && s[q] == EMPTY && (dup || key !in s)
    modifies m, m.states, m.keys, m.vals
    ensures Ready(m, K, dup, s[q := key], n - 1) && m.Repr() == old(m.Repr())
  {
    hide m.Valid, Inv, GoodLayout, Bag, Count, Store, Geometry, FirstFreeSlot, EndsAt, IsFirst, FreeSpot;
    SettingsAreGood(K);
    GeometryIsGood(K);
    ghost var _ := m.Facts();
    ghost var g, t := m.layout, m.table;
    m.CapacityFacts();
    if !dup { NotShown(t, s, key); }
    var pos, op, _, _, _ := m.Insert(key);
    ghost var _ := m.Facts();
    SpotIsFree(g, t, s, q, pos, key);
    StoreShows(g, t, s, q, key, t.vals[q]);
    PlaceFacts(g, t, dup, q, key);
  }

  lemma NotShown(t: Table<int, int>, s: seq<int>, key: int)
    requires Shows(t, s) && key !in s
    ensures !Holds(t, key)
  {
    forall p | Live(t, p) ensures t.keys[p] in s { assert s[p] == t.keys[p]; }
  }

  lemma SpotIsFree(g: Layout<int>, t: Table<int, int>, s: seq<int>, q: int, pos: int, key: int)
    requires Shows(t, s) && FreeSpot(g, s, key, q) && FirstFreeSlot(g, t, key, pos)
    ensures 0 <= pos == q < |s| && s[q] < 0
  {
  }

  lemma VacatedCount(g: Layout<int>, t: Table<int, int>, s: seq<int>, p: int)
    requires Fits(g, t) && Shows(t, s) && 0 <= p < |s| && s[p] >= 0 && !HasEmpty(g, t, g.bucket[p])
    ensures Count(Vacate(g, t, p).states, EMPTY) == Count(t.states, EMPTY)
  {
    CountUpdate(t.states, p, TOMBSTONE);
  }

  /** Without automatic shrinking and scrubbing positions stay good. */
  lemma AlwaysKept(m: Map<int, int>, g: Layout<int>, t: Table<int, int>, p: int, kept: bool, same: bool)
    requires Fits(g, t) && 0 <= p < |t.states| && !m.flags.autoShrink && !m.flags.autoScrub
    requires m.ErasedSlot(g, t, p, kept, same)
    ensures kept
  {
  }

  method Drop(m: Map<int, int>, p: nat, ghost K: nat, ghost dup: bool, ghost s: seq<int>, ghost n: int)
    requires (K == 1 || K == 2) && Ready(m, K, dup, s, n) && p < |s| == |Geometry(K).bucket| && s[p] >= 0
    requires forall e :: 0 <= e < |s| && s[e] == EMPTY ==> Geometry(K).bucket[e] != Geometry(K).bucket[p]
    modifies m, m.states, m.keys, m.vals
    ensures Ready(m, K, dup, s[p := TOMBSTONE], n) && fresh(m.Repr() - old(m.Repr()))
  {
    hide m.Valid, m.ErasedSlot, Inv, GoodLayout, Bag, Count, Vacate, HasEmpty, Geometry;
    ghost var e := m.Facts();
    ghost var g, t := m.layout, m.table;
    VacateShows(g, t, s, p);
    VacatedCount(g, t, s, p);
    var _, kept := m.EraseAt(p);
    AlwaysKept(m, g, t, p, kept, m.states == old(m.states) && m.keys == old(m.keys) && m.vals == old(m.vals));
    ghost var _ := m.Facts();
  }

  // ---------------------------------------------------------------- scrubbing

  /** An entry in the first bucket of its path stays. */
  lemma StaysHome(g: Layout<int>, t: Table<int, int>, p: int)
    requires GoodLayout(g) && Fits(g, t) && Live(t, p) && g.rank(t.keys[p], p) == 0
    ensures Target(g, t, p) == p && Visit(g, t, p) == t && StopPsl(g, t, p) == 0
  {
    hide GoodLayout;
  }

  /** The first bucket of the path has a free slot `q` for an entry that is further away. */
  lemma MovesHome(g: Layout<int>, t: Table<int, int>, s: seq<int>, p: int, q: int)
    requires GoodLayout(g) && Fits(g, t) && Shows(t, s) && 0 <= p < |s| && s[p] >= 0 && g.finger(s[p]) == 0
    requires 0 <= q < |s| && s[q] < 0 && g.rank(s[p], q) == 0 < g.rank(s[p], p)
    requires forall x :: 0 <= x < q && g.rank(s[p], x) == 0 ==> s[x] >= 0
    requires forall e :: 0 <= e < |s| && s[e] == EMPTY ==> g.bucket[e] != g.bucket[p]
    ensures Target(g, t, p) == q != p && StopPsl(g, t, p) == 0
    ensures Fits(g, Visit(g, t, p)) && Shows(Visit(g, t, p), s[p := TOMBSTONE][q := s[p]])
  {
    hide GoodLayout, Target;
    RankBounds(g, s[p], p);
    TargetFacts(g, t, p);
    BucketRange(g, s[p], 0);
    HomeIsFree(g, t, s[p], q);
    var b := g.path(s[p], 0);
    TargetAtHome(g, t, p);
    VacateShows(g, t, s, p);
    StoreShows(g, Vacate(g, t, p), s[p := TOMBSTONE], q, s[p], t.vals[p]);
  }

  lemma HomeIsFree(g: Layout<int>, t: Table<int, int>, key: int, q: int)
    requires GoodLayout(g) && Fits(g, t) && g.n > 0
    requires 0 <= q < |t.states| && !IsHash(t.states[q]) && g.rank(key, q) == 0
    ensures HasFree(g, t, g.path(key, 0))
  {
    assert g.bucket[q] == g.path(key, 0);
  }

  lemma TargetAtHome(g: Layout<int>, t: Table<int, int>, p: int)
    requires GoodLayout(g) && Fits(g, t) && 0 <= p < |t.states| && g.rank(t.keys[p], p) > 0
             && HasFree(g, t, g.path(t.keys[p], 0))
    ensures StopFrom(g, t, p, 0) == 0
    ensures var b := g.path(t.keys[p], 0);
      0 <= b && b + g.K <= |t.states| && Target(g, t, p) == if FreeFrom(t.states, b, b + g.K) < b + g.K
        then FreeFrom(t.states, b, b + g.K) else p
  {
    BucketRange(g, t.keys[p], 0);
  }

  lemma PassStays(g: Layout<int>, t: Table<int, int>, p: int, moves: nat, bits: nat)
    requires GoodLayout(g) && Fits(g, t) && Live(t, p) && g.rank(t.keys[p], p) == 0
    ensures PassFrom(g, t, p, moves, bits) == PassFrom(g, t, p + 1, moves, bits)
  {
    hide GoodLayout, PassFrom;
    StaysHome(g, t, p);
    PassVisit(g, t, p, moves, bits);
    assert Or(bits, 0) == bits;
  }

  lemma PassMoves(g: Layout<int>, t: Table<int, int>, s: seq<int>, p: int, q: int, moves: nat, bits: nat)
                  returns (u: Table<int, int>)
    requires GoodLayout(g) && Fits(g, t) && Shows(t, s) && 0 <= p < |s| && s[p] >= 0 && g.finger(s[p]) == 0
    requires 0 <= q < |s| && s[q] < 0 && g.rank(s[p], q) == 0 < g.rank(s[p], p)
    requires forall x :: 0 <= x < q && g.rank(s[p], x) == 0 ==> s[x] >= 0
    requires forall e :: 0 <= e < |s| && s[e] == EMPTY ==> g.bucket[e] != g.bucket[p]
    ensures Fits(g, u) && Shows(u, s[p := TOMBSTONE][q := s[p]])
    ensures PassFrom(g, t, p, moves, bits) == PassFrom(g, u, p + 1, moves + 1, bits)
  {
    hide GoodLayout, PassFrom, Target, Visit;
    MovesHome(g, t, s, p, q);
    PassVisit(g, t, p, moves, bits);
    assert Or(bits, 0) == bits;
    u := Visit(g, t, p);
  }

  /** A pass over entries that are all at home does nothing. */
  lemma {:induction false} IdlePass(g: Layout<int>, t: Table<int, int>, p: nat, moves: nat)
    requires GoodLayout(g) && Fits(g, t) && p <= |t.states|
    requires forall l :: Live(t, l) ==> g.rank(t.keys[l], l) == 0
    ensures PassFrom(g, t, p, moves, 0) == Outcome(t, moves, 0)
    decreases |t.states| - p
  {
    hide GoodLayout, Target, Visit, StopPsl;
    if p < |t.states| {
      if Live(t, p) { StaysHome(g, t, p); }
      IdlePass(g, t, p + 1, moves);
    }
  }
}
