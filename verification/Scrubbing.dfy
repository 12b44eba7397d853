/** `map::scrub_`: the in-place rebuild that moves entries upstream over tombstones and
    then turns tombstones back into empty slots.

    The algorithm is given as functions on tables; `HashMap.Map.Scrub` is proved to
    compute them.  The theorems say that it loses nothing for every bucket size of at
    least two, and `ScrubSafeExactlyForWideBuckets` says that one is really excluded. */
module Scrubbing {
  import opened Slots
  import opened Probing
  import opened Rebuild

  // ---------------------------------------------------------------- one entry

  ghost predicate HasFree<Key, Val>(g: Layout<Key>, t: Table<Key, Val>, b: int)
    requires Fits(g, t)
  {
    exists q :: 0 <= q < |t.states| && !IsHash(t.states[q]) && g.bucket[q] == b
  }

  /** The index on the path of `t.keys[p]` at which scrubbing stops looking: the entry's own
      bucket, or an earlier one with a slot that holds no entry. */
  ghost function StopFrom<Key(!new), Val>(g: Layout<Key>, t: Table<Key, Val>, p: int, j: nat): (r: nat)
    requires GoodLayout(g) && Fits(g, t) && 0 <= p < |t.states|
    requires j <= g.rank(t.keys[p], p)
    ensures j <= r <= g.rank(t.keys[p], p)
    ensures forall i :: j <= i < r ==> !HasFree(g, t, g.path(t.keys[p], i))
    ensures r < g.rank(t.keys[p], p) ==> HasFree(g, t, g.path(t.keys[p], r))
    decreases g.rank(t.keys[p], p) - j
  {
    if j == g.rank(t.keys[p], p) || HasFree(g, t, g.path(t.keys[p], j)) then j
    else StopFrom(g, t, p, j + 1)
  }

  /** The slot an entry is moved to; its own slot when it stays. */
  ghost function Target<Key(!new), Val>(g: Layout<Key>, t: Table<Key, Val>, p: int): (q: int)
    requires GoodLayout(g) && Fits(g, t) && 0 <= p < |t.states|
    ensures 0 <= q < |t.states|
  {
    var k := t.keys[p];
    var j := StopFrom(g, t, p, 0);
    if j == g.rank(k, p) then p
    else
      var b := g.path(k, j);
      var q := FreeFrom(t.states, b, b + g.K);
      if q < b + g.K then q else p
  }

  ghost function Move<Key, Val>(g: Layout<Key>, t: Table<Key, Val>, p: int, q: int): Table<Key, Val>
    requires Fits(g, t) && 0 <= p < |t.states| && 0 <= q < |t.states|
  {
    Store(g, Vacate(g, t, p), q, t.keys[p], t.vals[p])
  }

  ghost function Visit<Key(!new), Val>(g: Layout<Key>, t: Table<Key, Val>, p: int): Table<Key, Val>
    requires GoodLayout(g) && Fits(g, t) && 0 <= p < |t.states|
  {
    var q := Target(g, t, p);
    if q == p then t else Move(g, t, p, q)
  }

  /** Scrubbing never looks past a slot that holds no entry. */
  lemma StopIsFirstFree<Key(!new), Val>(g: Layout<Key>, t: Table<Key, Val>, p: int, f: int)
    requires GoodLayout(g) && Fits(g, t) && 0 <= p < |t.states|
    requires 0 <= f < |t.states| && !IsHash(t.states[f])
    ensures StopFrom(g, t, p, 0) <= g.rank(t.keys[p], f) || g.rank(t.keys[p], p) <= g.rank(t.keys[p], f)
  {
    var k := t.keys[p];
    assert g.path(k, g.rank(k, f)) == g.bucket[f];
    assert HasFree(g, t, g.path(k, g.rank(k, f)));
  }

  lemma SlotInBucket<Key(!new)>(g: Layout<Key>, p: int)
    requires GoodLayout(g) && 0 <= p < |g.bucket|
    ensures g.bucket[p] <= p < g.bucket[p] + g.K
  {
  }

  /** An entry that does not stop at its own bucket has a free slot to move to upstream. */
  lemma TargetFacts<Key(!new), Val>(g: Layout<Key>, t: Table<Key, Val>, p: int)
    requires GoodLayout(g) && Fits(g, t) && Live(t, p)
    ensures g.rank(t.keys[p], Target(g, t, p)) == StopFrom(g, t, p, 0)
    ensures Target(g, t, p) == p <==> StopFrom(g, t, p, 0) == g.rank(t.keys[p], p)
    ensures Target(g, t, p) != p ==> !IsHash(t.states[Target(g, t, p)])
  {
    hide GoodLayout, FreeFrom;
    var k := t.keys[p];
    RankBounds(g, k, p);
    var j := StopFrom(g, t, p, 0);
    BucketRange(g, k, j);
    if j < g.rank(k, p) {
      var b := g.path(k, j);
      var f :| 0 <= f < |t.states| && !IsHash(t.states[f]) && g.bucket[f] == b;
      SlotInBucket(g, f);
      assert FreeFrom(t.states, b, b + g.K) <= f;
    }
  }

  /** The slot it moves to is the first one on its path that holds no entry; it stays if there is none in an
      earlier bucket. */
  lemma TargetIsFirstFree<Key(!new), Val>(g: Layout<Key>, t: Table<Key, Val>, p: int)
    requires GoodLayout(g) && Fits(g, t) && Live(t, p)
    ensures Target(g, t, p) != p ==> FirstFreeSlot(g, t, t.keys[p], Target(g, t, p))
    ensures Target(g, t, p) == p <==>
              forall q :: 0 <= q < |t.states| && !IsHash(t.states[q]) ==> g.rank(t.keys[p], p) <= g.rank(t.keys[p], q)
  {
    var k, q := t.keys[p], Target(g, t, p);
    TargetFacts(g, t, p);
    forall f | 0 <= f < |t.states| && !IsHash(t.states[f])
      ensures q == p ==> g.rank(k, p) <= g.rank(k, f)
      ensures q != p ==> g.rank(k, q) < g.rank(k, f) || (g.rank(k, q) == g.rank(k, f) && q <= f)
    {
      StopIsFirstFree(g, t, p, f);
      if q != p && g.rank(k, q) == g.rank(k, f) { TargetIsLowest(g, t, p, f); }
    }
  }

  lemma TargetIsLowest<Key(!new), Val>(g: Layout<Key>, t: Table<Key, Val>, p: int, f: int)
    requires GoodLayout(g) && Fits(g, t) && Live(t, p) && Target(g, t, p) != p
    requires 0 <= f < |t.states| && !IsHash(t.states[f]) && g.rank(t.keys[p], f) == StopFrom(g, t, p, 0)
    ensures Target(g, t, p) <= f
  {
    hide StopFrom;
    var b := g.path(t.keys[p], StopFrom(g, t, p, 0));
    RankBounds(g, t.keys[p], f);
    BucketRange(g, t.keys[p], StopFrom(g, t, p, 0));
    assert b <= f < b + g.K;
  }

  /** Moving an entry upstream over a tombstone keeps the invariant and the contents. */
  lemma VisitKeeps<Key(!new), Val>(g: Layout<Key>, t: Table<Key, Val>, dup: bool, p: int)
    requires GoodLayout(g) && Inv(g, t, dup) && Live(t, p)
    ensures var q := Target(g, t, p); q != p ==> t.states[q] == TOMBSTONE && g.bucket[q] != g.bucket[p]
    ensures Inv(g, Visit(g, t, p), dup)
    ensures Bag(Visit(g, t, p)) == Bag(t)
  {
    hide Target, StopFrom, Bag;
    var k, q := t.keys[p], Target(g, t, p);
    TargetFacts(g, t, p);
    if q != p {
      assert g.rank(k, q) < g.rank(k, p);
      assert !EmptyAt(t, q);
      VacateKeeps(g, t, dup, p);
      var v := Vacate(g, t, p);
      forall e | EmptyAt(v, e) ensures g.rank(k, q) <= g.rank(k, e) {
        if e != p { assert EmptyAt(t, e); }
      }
      if !dup {
        forall l | Live(v, l) ensures v.keys[l] != k { assert Live(t, l); }
      }
      StoreKeeps(g, v, dup, q, k, t.vals[p]);
    }
  }

  // ---------------------------------------------------------------- termination measure

  /** The probe lengths of the entries in the first `n` slots, added up. */
  ghost function PathSum<Key(!new), Val>(g: Layout<Key>, t: Table<Key, Val>, n: nat): nat
    requires GoodLayout(g) && Fits(g, t) && n <= |t.states|
  {
    if n == 0 then 0
    else PathSum(g, t, n - 1) + SlotSum(g, t, n - 1)
  }

  ghost function SlotSum<Key(!new), Val>(g: Layout<Key>, t: Table<Key, Val>, p: int): nat
    requires GoodLayout(g) && Fits(g, t) && 0 <= p < |t.states|
  {
    if IsHash(t.states[p]) then g.rank(t.keys[p], p) else 0
  }

  lemma {:induction false} PathSumUpdate<Key(!new), Val>(g: Layout<Key>, t: Table<Key, Val>, u: Table<Key, Val>, p: int,
                                                         n: nat)
    requires GoodLayout(g) && Fits(g, t) && Fits(g, u) && n <= |t.states| && 0 <= p < |t.states|
    requires forall q :: 0 <= q < |t.states| && q != p ==> SlotSum(g, t, q) == SlotSum(g, u, q)
    ensures PathSum(g, u, n) == PathSum(g, t, n) + (if p < n then SlotSum(g, u, p) - SlotSum(g, t, p) else 0)
  {
    if n > 0 { PathSumUpdate(g, t, u, p, n - 1); }
  }

  /** A move strictly lowers the moved entry's probe length and no other one changes. */
  lemma VisitLowersPathSum<Key(!new), Val>(g: Layout<Key>, t: Table<Key, Val>, p: int)
    requires GoodLayout(g) && Fits(g, t) && Live(t, p)
    ensures Fits(g, Visit(g, t, p))
    ensures PathSum(g, Visit(g, t, p), |t.states|)
            + (g.rank(t.keys[p], p) - g.rank(t.keys[p], Target(g, t, p))) == PathSum(g, t, |t.states|)
    ensures Target(g, t, p) != p ==> g.rank(t.keys[p], Target(g, t, p)) < g.rank(t.keys[p], p)
  {
    TargetFacts(g, t, p);
    var q := Target(g, t, p);
    if q != p {
      var v := Vacate(g, t, p);
      PathSumUpdate(g, t, v, p, |t.states|);
      var u := Visit(g, t, p);
      assert 0 <= g.finger(t.keys[p]);
      PathSumUpdate(g, v, u, q, |t.states|);
    }
  }

  // ---------------------------------------------------------------- one pass

  /** Bitwise or, as `psl_bits |= seq.psl()` uses it. */
  function Or(a: nat, b: nat): (r: nat)
    ensures r == 0 <==> a == 0 && b == 0
  {
    if a == 0 then b
    else if b == 0 then a
    else 2 * Or(a / 2, b / 2) + (if a % 2 == 1 || b % 2 == 1 then 1 else 0)
  }

  function InSlots(steps: nat, K: nat): (r: nat)
    requires K > 0
    ensures r == 0 <==> steps == 0
  {
    steps * K
  }

  /** The probe length in slots, `seq.psl()`, at which scrubbing leaves the entry of slot `p`. */
  ghost function StopPsl<Key(!new), Val>(g: Layout<Key>, t: Table<Key, Val>, p: int): (psl: nat)
    requires GoodLayout(g) && Fits(g, t) && 0 <= p < |t.states|
    ensures psl == 0 <==> StopFrom(g, t, p, 0) == 0
  {
    InSlots(StopFrom(g, t, p, 0), g.K)
  }

  datatype Outcome<Key, Val> = Outcome(t: Table<Key, Val>, moves: nat, bits: nat)

  /** A pass visits the slots in order; `bits` gathers the probe lengths it ends at. */
  ghost function PassFrom<Key(!new), Val>(g: Layout<Key>, t: Table<Key, Val>, p: nat, moves: nat,
                                          bits: nat): (o: Outcome<Key, Val>)
    requires GoodLayout(g) && Fits(g, t) && p <= |t.states|
    ensures Fits(g, o.t) && o.moves >= moves
    decreases |t.states| - p
  {
    if p == |t.states| then Outcome(t, moves, bits)
    else if Live(t, p) then
      PassFrom(g, Visit(g, t, p), p + 1, if Target(g, t, p) == p then moves else moves + 1, Or(bits, StopPsl(g, t, p)))
    else PassFrom(g, t, p + 1, moves, bits)
  }

  lemma {:induction false} PassLowersPathSum<Key(!new), Val>(g: Layout<Key>, t: Table<Key, Val>, p: nat, moves: nat,
                                                             bits: nat)
    requires GoodLayout(g) && Fits(g, t) && p <= |t.states|
    ensures PathSum(g, PassFrom(g, t, p, moves, bits).t, |g.bucket|) + PassFrom(g, t, p, moves, bits).moves
            <= PathSum(g, t, |g.bucket|) + moves
    decreases |t.states| - p
  {
    hide GoodLayout, Target, Visit, Or, StopPsl, PathSum;
    if p < |t.states| {
      if Live(t, p) {
        VisitLowersPathSum(g, t, p);
        PassLowersPathSum(g, Visit(g, t, p), p + 1, if Target(g, t, p) == p then moves else moves + 1,
                          Or(bits, StopPsl(g, t, p)));
      } else {
        PassLowersPathSum(g, t, p + 1, moves, bits);
      }
    }
  }

  ghost predicate AllTombstones<Key, Val>(g: Layout<Key>, t: Table<Key, Val>, b: int)
    requires Fits(g, t)
  {
    forall q :: 0 <= q < |t.states| && g.bucket[q] == b ==> t.states[q] == TOMBSTONE
  }

  ghost predicate HoldTombstones<Key, Val>(g: Layout<Key>, t: Table<Key, Val>, held: set<int>)
    requires Fits(g, t)
  {
    forall b :: b in held ==> exists q :: TombAt(t, q) && g.bucket[q] == b
  }

  ghost predicate DeadBucketsHeld<Key, Val>(g: Layout<Key>, t: Table<Key, Val>, held: set<int>)
    requires Fits(g, t)
  {
    forall q :: TombAt(t, q) && AllTombstones(g, t, g.bucket[q]) ==> g.bucket[q] in held
  }

  /** No entry in the first `p` slots lies beyond a bucket of `held` on its own path. */
  ghost predicate NotBeyond<Key, Val>(g: Layout<Key>, t: Table<Key, Val>, p: int, held: set<int>)
    requires Fits(g, t)
  {
    forall l, q :: 0 <= l < p && Live(t, l) && 0 <= q < |t.states| && g.bucket[q] in held
                   ==> g.rank(t.keys[l], l) <= g.rank(t.keys[l], q)
  }

  ghost predicate AllHome<Key, Val>(g: Layout<Key>, t: Table<Key, Val>, p: int)
    requires Fits(g, t)
  {
    forall l :: 0 <= l < p && Live(t, l) ==> g.rank(t.keys[l], l) == 0
  }

  /** Part of a pass, up to slot `p`.  `held` collects buckets that have held a tombstone
      ever since the pass began; no entry seen so far lies beyond one of them. */
  ghost predicate PassInv<Key(!new), Val>(g: Layout<Key>, t: Table<Key, Val>, dup: bool, p: nat, moves: nat, bits: nat,
                                          held: set<int>)
    requires GoodLayout(g)
  {
    && Inv(g, t, dup)
    && HoldTombstones(g, t, held)
    && (moves == 0 ==> forall q :: TombAt(t, q) ==> g.bucket[q] in held)
    && (moves == 1 && g.K >= 2 ==> DeadBucketsHeld(g, t, held))
    && NotBeyond(g, t, p, held)
    && (bits == 0 ==> AllHome(g, t, p))
  }

  ghost function StillHeld<Key, Val>(g: Layout<Key>, t: Table<Key, Val>, held: set<int>): set<int>
    requires Fits(g, t)
  {
    set b | b in held && exists q :: TombAt(t, q) && g.bucket[q] == b
  }

  lemma StayNotBeyond<Key(!new), Val>(g: Layout<Key>, t: Table<Key, Val>, p: nat, held: set<int>)
    requires GoodLayout(g) && Fits(g, t) && Live(t, p) && Target(g, t, p) == p
    requires HoldTombstones(g, t, held) && NotBeyond(g, t, p, held)
    ensures NotBeyond(g, t, p + 1, held)
  {
    hide GoodLayout, Target, StopFrom;
    TargetFacts(g, t, p);
    forall q | 0 <= q < |t.states| && g.bucket[q] in held
      ensures g.rank(t.keys[p], p) <= g.rank(t.keys[p], q)
    {
      assert exists f :: TombAt(t, f) && g.bucket[f] == g.bucket[q] by {
        var b := g.bucket[q];
        assert b in held;
      }
      var f :| TombAt(t, f) && g.bucket[f] == g.bucket[q];
      SameBucketSameRank(g, t.keys[p], f, q);
      StopIsFirstFree(g, t, p, f);
    }
  }

  lemma StayStep<Key(!new), Val>(g: Layout<Key>, t: Table<Key, Val>, dup: bool, p: nat, moves: nat, bits: nat,
                                 held: set<int>)
    requires GoodLayout(g) && p < |t.states| && PassInv(g, t, dup, p, moves, bits, held)
    requires Live(t, p) && Target(g, t, p) == p
    ensures PassInv(g, t, dup, p + 1, moves, Or(bits, StopPsl(g, t, p)), held)
  {
    TargetFacts(g, t, p);
    StayNotBeyond(g, t, p, held);
  }

  /** The only way an all-tombstone bucket can appear in a pass with a single move is that
      the move vacated its last entry; its other slots were tombstones all along. */
  lemma FirstMoveHeld<Key(!new), Val>(g: Layout<Key>, t: Table<Key, Val>, p: nat, q: nat, held: set<int>)
    requires GoodLayout(g) && Fits(g, t) && p < |t.states| && q < |t.states| && p != q && g.K >= 2
    requires forall x :: TombAt(t, x) ==> g.bucket[x] in held
    ensures Fits(g, Move(g, t, p, q))
    ensures DeadBucketsHeld(g, Move(g, t, p, q), StillHeld(g, Move(g, t, p, q), held))
  {
    var u := Move(g, t, p, q);
    forall x | TombAt(u, x) && AllTombstones(g, u, g.bucket[x]) ensures g.bucket[x] in StillHeld(g, u, held) {
      var r := if x != p then x else if g.bucket[p] == p then p + 1 else g.bucket[p];
      assert g.bucket[r] == g.bucket[x];
      assert TombAt(u, r) && TombAt(t, r);
    }
  }

  /** After a move the entry is live at its target, its old slot is not, and no other slot changed. */
  lemma MoveShape<Key, Val>(g: Layout<Key>, t: Table<Key, Val>, p: int, q: int, l: int)
    requires Fits(g, t) && Live(t, p) && 0 <= q < |t.states| && q != p && Live(Move(g, t, p, q), l)
    ensures l != p && Move(g, t, p, q).keys[l] == if l == q then t.keys[p] else t.keys[l]
    ensures l != q ==> Live(t, l)
  {
  }

  lemma MoveNotBeyond<Key(!new), Val>(g: Layout<Key>, t: Table<Key, Val>, p: nat, held: set<int>)
    requires GoodLayout(g) && Fits(g, t) && Live(t, p) && Target(g, t, p) != p
    requires HoldTombstones(g, t, held) && NotBeyond(g, t, p, held)
    ensures Fits(g, Visit(g, t, p))
    ensures NotBeyond(g, Visit(g, t, p), p + 1, StillHeld(g, Visit(g, t, p), held))
  {
    hide GoodLayout, Target, StopFrom;
    var k, q, u := t.keys[p], Target(g, t, p), Visit(g, t, p);
    TargetFacts(g, t, p);
    forall l, x | 0 <= l < p + 1 && Live(u, l) && 0 <= x < |u.states| && g.bucket[x] in StillHeld(g, u, held)
      ensures g.rank(u.keys[l], l) <= g.rank(u.keys[l], x)
    {
      MoveShape(g, t, p, q, l);
      hide Visit, Move;
      if l == q {
        var f :| TombAt(t, f) && g.bucket[f] == g.bucket[x];
        SameBucketSameRank(g, k, f, x);
        StopIsFirstFree(g, t, p, f);
      }
    }
  }

  lemma MoveAllHome<Key(!new), Val>(g: Layout<Key>, t: Table<Key, Val>, p: nat, bits: nat)
    requires GoodLayout(g) && Fits(g, t) && Live(t, p) && Target(g, t, p) != p
    requires bits == 0 ==> AllHome(g, t, p)
    ensures Fits(g, Visit(g, t, p))
    ensures Or(bits, StopPsl(g, t, p)) == 0 ==> AllHome(g, Visit(g, t, p), p + 1)
  {
    var q, u := Target(g, t, p), Visit(g, t, p);
    TargetFacts(g, t, p);
    if Or(bits, StopPsl(g, t, p)) == 0 {
      forall l | 0 <= l < p + 1 && Live(u, l) ensures g.rank(u.keys[l], l) == 0 {
        if l != q { assert Live(t, l); }
      }
    }
  }

  lemma MoveStep<Key(!new), Val>(g: Layout<Key>, t: Table<Key, Val>, dup: bool, p: nat, moves: nat, bits: nat,
                                 held: set<int>)
    requires GoodLayout(g) && p < |t.states| && PassInv(g, t, dup, p, moves, bits, held)
    requires Live(t, p) && Target(g, t, p) != p
    ensures Fits(g, Visit(g, t, p))
    ensures PassInv(g, Visit(g, t, p), dup, p + 1, moves + 1, Or(bits, StopPsl(g, t, p)),
                    StillHeld(g, Visit(g, t, p), held))
  {
    VisitKeeps(g, t, dup, p);
    if moves == 0 && g.K >= 2 { FirstMoveHeld(g, t, p, Target(g, t, p), held); }
    MoveNotBeyond(g, t, p, held);
    MoveAllHome(g, t, p, bits);
  }

  /** One step of a pass, whichever way it goes. */
  lemma StepKeeps<Key(!new), Val>(g: Layout<Key>, t: Table<Key, Val>, dup: bool, p: nat, moves: nat, bits: nat,
                                  held: set<int>)
    returns (held': set<int>)
    requires GoodLayout(g) && p < |t.states| && PassInv(g, t, dup, p, moves, bits, held)
    requires Live(t, p)
    ensures Fits(g, Visit(g, t, p)) && Bag(Visit(g, t, p)) == Bag(t)
    ensures PassInv(g, Visit(g, t, p), dup, p + 1, if Target(g, t, p) == p then moves else moves + 1,
                    Or(bits, StopPsl(g, t, p)), held')
  {
    VisitKeeps(g, t, dup, p);
    if Target(g, t, p) == p {
      StayStep(g, t, dup, p, moves, bits, held);
      held' := held;
    } else {
      MoveStep(g, t, dup, p, moves, bits, held);
      held' := StillHeld(g, Visit(g, t, p), held);
    }
  }

  lemma SkipStep<Key(!new), Val>(g: Layout<Key>, t: Table<Key, Val>, dup: bool, p: nat, moves: nat, bits: nat,
                                 held: set<int>)
    requires GoodLayout(g) && PassInv(g, t, dup, p, moves, bits, held) && !Live(t, p)
    ensures PassInv(g, t, dup, p + 1, moves, bits, held)
  {
  }

  lemma PassInvFits<Key(!new), Val>(g: Layout<Key>, t: Table<Key, Val>, dup: bool, p: nat, moves: nat, bits: nat,
                                    held: set<int>)
    requires GoodLayout(g) && PassInv(g, t, dup, p, moves, bits, held)
    ensures Fits(g, t)
  {
  }

  /** What a pass leaves behind. */
  lemma {:induction false} PassKeeps<Key(!new), Val>(g: Layout<Key>, t: Table<Key, Val>, dup: bool, p: nat, moves: nat,
                                                     bits: nat, held: set<int>)
    returns (held': set<int>)
    requires GoodLayout(g) && p <= |t.states| && PassInv(g, t, dup, p, moves, bits, held)
    ensures PassInv(g, PassFrom(g, t, p, moves, bits).t, dup, |t.states|,
                    PassFrom(g, t, p, moves, bits).moves, PassFrom(g, t, p, moves, bits).bits, held')
    ensures Bag(PassFrom(g, t, p, moves, bits).t) == Bag(t)
    decreases |t.states| - p
  {
    hide PassInv, Bag, Visit, Target, Or, StopPsl;
    PassInvFits(g, t, dup, p, moves, bits, held);
    if p == |t.states| {
      held' := held;
    } else if Live(t, p) {
      var mid := StepKeeps(g, t, dup, p, moves, bits, held);
      held' := PassKeeps(g, Visit(g, t, p), dup, p + 1, if Target(g, t, p) == p then moves else moves + 1,
                         Or(bits, StopPsl(g, t, p)), mid);
    } else {
      SkipStep(g, t, dup, p, moves, bits, held);
      held' := PassKeeps(g, t, dup, p + 1, moves, bits, held);
    }
  }

  /** The state of a pass before it has looked at anything. */
  lemma PassStart<Key(!new), Val>(g: Layout<Key>, t: Table<Key, Val>, dup: bool) returns (held: set<int>)
    requires GoodLayout(g) && Inv(g, t, dup)
    ensures PassInv(g, t, dup, 0, 0, 0, held)
  {
    held := set q | 0 <= q < |t.states| && t.states[q] == TOMBSTONE :: g.bucket[q];
    forall b | b in held ensures exists q :: TombAt(t, q) && g.bucket[q] == b {
      var q :| 0 <= q < |t.states| && t.states[q] == TOMBSTONE && g.bucket[q] == b;
      assert TombAt(t, q);
    }
  }

  // ---------------------------------------------------------------- the reclaim

  /** Every tombstone becomes an empty slot. */
  function ReclaimAll<Key, Val>(t: Table<Key, Val>): Table<Key, Val> {
    t.(states := seq(|t.states|, p requires 0 <= p < |t.states| => if t.states[p] == TOMBSTONE then EMPTY
      else t.states[p]))
  }

  /** Only buckets that consist of tombstones become empty. */
  ghost function ReclaimDead<Key, Val>(g: Layout<Key>, t: Table<Key, Val>): Table<Key, Val>
    requires Fits(g, t)
  {
    t.(states := seq(|t.states|, p requires 0 <= p < |t.states| => if AllTombstones(g, t, g.bucket[p]) then EMPTY
      else t.states[p]))
  }

  lemma SameEntriesSameBag<Key, Val>(t: Table<Key, Val>, u: Table<Key, Val>)
    requires |t.states| == |t.keys| == |t.vals| == |u.states| == |u.keys| == |u.vals|
    requires forall p :: 0 <= p < |t.states| ==> Entry(t, p) == Entry(u, p)
    ensures Bag(t) == Bag(u)
  {
    assert View(t) == View(u);
  }

  lemma ReclaimAllKeeps<Key(!new), Val>(g: Layout<Key>, t: Table<Key, Val>, dup: bool)
    requires GoodLayout(g) && Inv(g, t, dup)
    requires AllHome(g, t, |t.states|)
    ensures Inv(g, ReclaimAll(t), dup) && Bag(ReclaimAll(t)) == Bag(t)
    ensures forall p :: !TombAt(ReclaimAll(t), p)
  {
    var u := ReclaimAll(t);
    SameEntriesSameBag(t, u);
    assert forall p :: Live(u, p) <==> Live(t, p);
  }

  lemma ReclaimDeadKeeps<Key(!new), Val>(g: Layout<Key>, t: Table<Key, Val>, dup: bool, held: set<int>)
    requires GoodLayout(g) && Inv(g, t, dup)
    requires DeadBucketsHeld(g, t, held) && NotBeyond(g, t, |t.states|, held)
    ensures Inv(g, ReclaimDead(g, t), dup) && Bag(ReclaimDead(g, t)) == Bag(t)
  {
    var u := ReclaimDead(g, t);
    SameEntriesSameBag(t, u);
    forall l, e | Live(u, l) && EmptyAt(u, e) ensures g.rank(u.keys[l], l) <= g.rank(u.keys[l], e) {
      assert Live(t, l);
      if !EmptyAt(t, e) { assert TombAt(t, e); }
    }
    forall p, e | TombAt(u, p) && EmptyAt(u, e) ensures g.bucket[p] != g.bucket[e] {
      assert TombAt(t, p);
      if !EmptyAt(t, e) { assert TombAt(t, e); }
    }
    forall l | Live(u, l) ensures Live(t, l) && u.states[l] == t.states[l] {}
  }

  // ---------------------------------------------------------------- the whole operation

  /** Passes are repeated until one of them makes at most one move. */
  ghost function Passes<Key(!new), Val>(g: Layout<Key>, t: Table<Key, Val>, moves: nat): (o: Outcome<Key, Val>)
    requires GoodLayout(g) && Fits(g, t)
    ensures Fits(g, o.t)
    decreases PathSum(g, t, |g.bucket|)
  {
    var o := PassFrom(g, t, 0, 0, 0);
    PassLowersPathSum(g, t, 0, 0, 0);
    if o.moves <= 1 then Outcome(o.t, moves + o.moves, o.bits)
    else Passes(g, o.t, moves + o.moves)
  }

  ghost function Reclaim<Key(!new), Val>(g: Layout<Key>, o: Outcome<Key, Val>): (t: Table<Key, Val>)
    requires Fits(g, o.t)
    ensures Fits(g, t)
  {
    if o.moves == 0 then o.t
    else if o.bits == 0 then ReclaimAll(o.t)
    else ReclaimDead(g, o.t)
  }

  ghost predicate HasTombstone<Key, Val>(t: Table<Key, Val>) {
    exists p :: TombAt(t, p)
  }

  ghost function Scrubbed<Key(!new), Val>(g: Layout<Key>, t: Table<Key, Val>): (u: Table<Key, Val>)
    requires GoodLayout(g) && Fits(g, t)
    ensures Fits(g, u)
  {
    if HasTombstone(t) then Reclaim(g, Passes(g, t, 0)) else t
  }

  ghost function ScrubMoves<Key(!new), Val>(g: Layout<Key>, t: Table<Key, Val>): nat
    requires GoodLayout(g) && Fits(g, t)
  {
    if HasTombstone(t) then Passes(g, t, 0).moves else 0
  }

  /** What the reclaim relies on after the last pass. */
  ghost predicate Settled<Key(!new), Val>(g: Layout<Key>, o: Outcome<Key, Val>, dup: bool, held: set<int>)
    requires GoodLayout(g)
  {
    && Inv(g, o.t, dup)
    && NotBeyond(g, o.t, |o.t.states|, held)
    && (g.K >= 2 ==> DeadBucketsHeld(g, o.t, held))
    && (o.bits == 0 ==> AllHome(g, o.t, |o.t.states|))
  }

  lemma PassSettles<Key(!new), Val>(g: Layout<Key>, o: Outcome<Key, Val>, dup: bool, p: nat, held: set<int>)
    requires GoodLayout(g) && PassInv(g, o.t, dup, p, o.moves, o.bits, held)
    requires o.moves <= 1 && p == |o.t.states|
    ensures Settled(g, o, dup, held)
  {
  }

  lemma {:induction false} PassesKeep<Key(!new), Val>(g: Layout<Key>, t: Table<Key, Val>, dup: bool, moves: nat)
                                                      returns (held: set<int>)
    requires GoodLayout(g) && Inv(g, t, dup)
    ensures Settled(g, Passes(g, t, moves), dup, held)
    ensures Bag(Passes(g, t, moves).t) == Bag(t)
    ensures Passes(g, t, moves).moves >= moves
    ensures Passes(g, t, moves).moves == moves ==>
              Passes(g, t, moves).t == PassFrom(g, t, 0, 0, 0).t && PassFrom(g, t, 0, 0, 0).moves == 0
    decreases PathSum(g, t, |g.bucket|)
  {
    hide GoodLayout, Inv, PassInv, Settled, PassFrom, Bag, PathSum;
    assert Fits(g, t) by { InvFits(g, t, dup); }
    var held0 := PassStart(g, t, dup);
    held := PassKeeps(g, t, dup, 0, 0, 0, held0);
    PassLowersPathSum(g, t, 0, 0, 0);
    var o := PassFrom(g, t, 0, 0, 0);
    PassInvFits(g, t, dup, 0, 0, 0, held0);
    if o.moves > 1 {
      assert Inv(g, o.t, dup) by { PassInvInv(g, o.t, dup, |t.states|, o.moves, o.bits, held); }
      held := PassesKeep(g, o.t, dup, moves + o.moves);
    } else {
      PassSettles(g, o, dup, |t.states|, held);
      SettledAnyCount(g, o, dup, held, moves + o.moves);
    }
  }

  lemma InvFits<Key(!new), Val>(g: Layout<Key>, t: Table<Key, Val>, dup: bool)
    requires Inv(g, t, dup)
    ensures Fits(g, t)
  {
  }

  lemma PassInvInv<Key(!new), Val>(g: Layout<Key>, t: Table<Key, Val>, dup: bool, p: nat, moves: nat, bits: nat,
                                   held: set<int>)
    requires GoodLayout(g) && PassInv(g, t, dup, p, moves, bits, held)
    ensures Inv(g, t, dup)
  {
  }

  lemma SettledAnyCount<Key(!new), Val>(g: Layout<Key>, o: Outcome<Key, Val>, dup: bool, held: set<int>, moves: nat)
    requires GoodLayout(g) && Settled(g, o, dup, held)
    ensures Settled(g, Outcome(o.t, moves, o.bits), dup, held)
  {
  }

  /** Scrubbing keeps the invariant, and with it every entry stays findable, as long as a
      bucket has at least two slots; it never changes what the table holds. */
  lemma ScrubKeeps<Key(!new), Val>(g: Layout<Key>, t: Table<Key, Val>, dup: bool)
    requires GoodLayout(g) && Inv(g, t, dup)
    ensures Bag(Scrubbed(g, t)) == Bag(t)
    ensures g.K >= 2 ==> Inv(g, Scrubbed(g, t), dup)
  {
    if HasTombstone(t) {
      var held := PassesKeep(g, t, dup, 0);
      var o := Passes(g, t, 0);
      if o.moves > 0 && o.bits == 0 {
        ReclaimAllKeeps(g, o.t, dup);
      } else if o.moves > 0 {
        if g.K >= 2 { ReclaimDeadKeeps(g, o.t, dup, held); }
        SameEntriesSameBag(o.t, ReclaimDead(g, o.t));
      }
    }
  }

  /** Whatever the bucket size, states stay the fingerprints of the keys. */
  lemma ScrubFingerprints<Key(!new), Val>(g: Layout<Key>, t: Table<Key, Val>, dup: bool)
    requires GoodLayout(g) && Inv(g, t, dup)
    ensures Fits(g, Scrubbed(g, t)) && Fingerprinted(g, Scrubbed(g, t))
  {
    hide GoodLayout, Passes, PassFrom;
    if HasTombstone(t) {
      var held := PassesKeep(g, t, dup, 0);
      var o := Passes(g, t, 0);
      forall u: Table<Key, Val> | u == o.t || u == ReclaimAll(o.t) || u == ReclaimDead(g, o.t)
        ensures Fingerprinted(g, u)
      {
        forall p | Live(u, p) ensures Live(o.t, p) {}
      }
    }
  }

  // ---------------------------------------------------------------- what scrubbing achieves

  lemma {:induction false} QuietPass<Key(!new), Val>(g: Layout<Key>, t: Table<Key, Val>, p: nat, moves: nat, bits: nat)
    requires GoodLayout(g) && Fits(g, t) && p <= |t.states|
    requires PassFrom(g, t, p, moves, bits).moves == moves
    ensures PassFrom(g, t, p, moves, bits).t == t
    ensures forall l :: p <= l && Live(t, l) ==> Target(g, t, l) == l
    decreases |t.states| - p
  {
    hide Target, Or, StopPsl, Move;
    if p < |t.states| {
      if Live(t, p) {
        QuietPass(g, t, p + 1, moves, Or(bits, StopPsl(g, t, p)));
      } else {
        QuietPass(g, t, p + 1, moves, bits);
      }
    }
  }

  lemma {:induction false} PassesLowerPathSum<Key(!new), Val>(g: Layout<Key>, t: Table<Key, Val>, moves: nat)
    requires GoodLayout(g) && Fits(g, t)
    ensures PathSum(g, Passes(g, t, moves).t, |g.bucket|) + Passes(g, t, moves).moves <= PathSum(g, t, |g.bucket|)
            + moves
    decreases PathSum(g, t, |g.bucket|)
  {
    var o := PassFrom(g, t, 0, 0, 0);
    PassLowersPathSum(g, t, 0, 0, 0);
    if o.moves > 1 { PassesLowerPathSum(g, o.t, moves + o.moves); }
  }

  lemma {:induction false} SamePathSum<Key(!new), Val>(g: Layout<Key>, t: Table<Key, Val>, u: Table<Key, Val>, n: nat)
    requires GoodLayout(g) && Fits(g, t) && Fits(g, u) && n <= |t.states|
    requires forall q :: 0 <= q < |t.states| ==> SlotSum(g, t, q) == SlotSum(g, u, q)
    ensures PathSum(g, t, n) == PathSum(g, u, n)
  {
    if n > 0 { SamePathSum(g, t, u, n - 1); }
  }

  /** Scrubbing that moves nothing changes nothing, and then no entry could have moved. */
  lemma ScrubFixpoint<Key(!new), Val>(g: Layout<Key>, t: Table<Key, Val>, dup: bool)
    requires GoodLayout(g) && Inv(g, t, dup) && ScrubMoves(g, t) == 0
    ensures Scrubbed(g, t) == t
    ensures forall l :: Live(t, l) ==> Target(g, t, l) == l
  {
    hide PathSum;
    if HasTombstone(t) {
      var _ := PassesKeep(g, t, dup, 0);
      QuietPass(g, t, 0, 0, 0);
    } else {
      forall l | Live(t, l) ensures Target(g, t, l) == l {
        var q := Target(g, t, l);
        VisitKeeps(g, t, dup, l);
        assert q == l || TombAt(t, q);
      }
    }
  }

  /** Every move shortens some entry's probe path, so scrubbing always terminates. */
  lemma ScrubShortens<Key(!new), Val>(g: Layout<Key>, t: Table<Key, Val>)
    requires GoodLayout(g) && Fits(g, t)
    ensures PathSum(g, Scrubbed(g, t), |g.bucket|) + ScrubMoves(g, t) <= PathSum(g, t, |g.bucket|)
  {
    if HasTombstone(t) {
      var o := Passes(g, t, 0);
      PassesLowerPathSum(g, t, 0);
      SamePathSum(g, o.t, Reclaim(g, o), |g.bucket|);
    }
  }

  // How much a scrub changes.

  /** The number of slots below `n` whose entries differ. */
  ghost function Changed<Key, Val>(t: Table<Key, Val>, u: Table<Key, Val>, n: nat): nat
    requires |t.states| == |t.keys| == |t.vals| == |u.states| == |u.keys| == |u.vals| && n <= |t.states|
  {
    if n == 0 then 0 else Changed(t, u, n - 1) + if Entry(t, n - 1) == Entry(u, n - 1) then 0 else 1
  }

  lemma {:induction false} ChangedTriangle<Key, Val>(t: Table<Key, Val>, u: Table<Key, Val>, v: Table<Key, Val>, n: nat)
    requires |t.states| == |t.keys| == |t.vals| == |u.states| == |u.keys| == |u.vals| && n <= |t.states|
    requires |v.states| == |v.keys| == |v.vals| == |t.states|
    ensures Changed(t, v, n) <= Changed(t, u, n) + Changed(u, v, n)
  {
    if n > 0 { ChangedTriangle(t, u, v, n - 1); }
  }

  lemma {:induction false} ChangedTwo<Key, Val>(t: Table<Key, Val>, u: Table<Key, Val>, p: int, q: int, n: nat)
    requires |t.states| == |t.keys| == |t.vals| == |u.states| == |u.keys| == |u.vals| && n <= |t.states|
    requires forall x :: 0 <= x < |t.states| && x != p && x != q ==> Entry(t, x) == Entry(u, x)
    ensures Changed(t, u, n) <= (if p < n then 1 else 0) + if q < n then 1 else 0
  {
    if n > 0 { ChangedTwo(t, u, p, q, n - 1); }
  }

  lemma {:induction false} ChangedNone<Key, Val>(t: Table<Key, Val>, u: Table<Key, Val>, n: nat)
    requires |t.states| == |t.keys| == |t.vals| == |u.states| == |u.keys| == |u.vals| && n <= |t.states|
    requires forall x :: 0 <= x < |t.states| ==> Entry(t, x) == Entry(u, x)
    ensures Changed(t, u, n) == 0
  {
    if n > 0 { ChangedNone(t, u, n - 1); }
  }

  lemma VisitChanges<Key(!new), Val>(g: Layout<Key>, t: Table<Key, Val>, p: int)
    requires GoodLayout(g) && Fits(g, t) && Live(t, p)
    ensures Fits(g, Visit(g, t, p)) && Changed(t, Visit(g, t, p), |g.bucket|) <= if Target(g, t, p) == p then 0 else 2
  {
    hide GoodLayout, Target, HasEmpty;
    var q := Target(g, t, p);
    if q == p { ChangedNone(t, t, |g.bucket|); } else { ChangedTwo(t, Visit(g, t, p), p, q, |g.bucket|); }
  }

  lemma {:induction false} PassChanges<Key(!new), Val>(g: Layout<Key>, t: Table<Key, Val>, p: nat, moves: nat,
                                                       bits: nat)
    requires GoodLayout(g) && Fits(g, t) && p <= |t.states|
    ensures Changed(t, PassFrom(g, t, p, moves, bits).t, |g.bucket|)
            <= 2 * (PassFrom(g, t, p, moves, bits).moves - moves)
    decreases |t.states| - p
  {
    hide GoodLayout, Target, Visit, Or, StopPsl, Changed;
    if p == |t.states| {
      ChangedNone(t, t, |g.bucket|);
    } else if Live(t, p) {
      var u, more := Visit(g, t, p), if Target(g, t, p) == p then moves else moves + 1;
      VisitChanges(g, t, p);
      PassChanges(g, u, p + 1, more, Or(bits, StopPsl(g, t, p)));
      ChangedTriangle(t, u, PassFrom(g, t, p, moves, bits).t, |g.bucket|);
    } else {
      PassChanges(g, t, p + 1, moves, bits);
    }
  }

  lemma {:induction false} PassesChange<Key(!new), Val>(g: Layout<Key>, t: Table<Key, Val>, moves: nat)
    requires GoodLayout(g) && Fits(g, t)
    ensures Changed(t, Passes(g, t, moves).t, |g.bucket|) <= 2 * (Passes(g, t, moves).moves - moves)
    decreases PathSum(g, t, |g.bucket|)
  {
    hide GoodLayout, Changed, PassFrom, PathSum;
    var o := PassFrom(g, t, 0, 0, 0);
    PassLowersPathSum(g, t, 0, 0, 0);
    PassChanges(g, t, 0, 0, 0);
    if o.moves > 1 {
      PassesChange(g, o.t, moves + o.moves);
      ChangedTriangle(t, o.t, Passes(g, t, moves).t, |g.bucket|);
    }
  }

  /** A scrub reports enough moves for what it changes: each of them changes two slots. */
  lemma ScrubChanges<Key(!new), Val>(g: Layout<Key>, t: Table<Key, Val>)
    requires GoodLayout(g) && Fits(g, t)
    ensures Changed(t, Scrubbed(g, t), |g.bucket|) <= 2 * ScrubMoves(g, t)
  {
    hide GoodLayout, Changed, Passes;
    if HasTombstone(t) {
      var o := Passes(g, t, 0);
      var u := Reclaim(g, o);
      PassesChange(g, t, 0);
      forall x | 0 <= x < |u.states| ensures Entry(o.t, x) == Entry(u, x) {}
      ChangedNone(o.t, u, |g.bucket|);
      ChangedTriangle(t, o.t, u, |g.bucket|);
    } else {
      ChangedNone(t, t, |g.bucket|);
    }
  }

  /** After a scrub that moved something no bucket consists of tombstones only. */
  lemma ScrubClearsDeadBuckets<Key(!new), Val>(g: Layout<Key>, t: Table<Key, Val>)
    requires GoodLayout(g) && Fits(g, t) && ScrubMoves(g, t) > 0
    ensures forall p :: TombAt(Scrubbed(g, t), p) ==> !AllTombstones(g, Scrubbed(g, t), g.bucket[p])
  {
    var o := Passes(g, t, 0);
    var u := Scrubbed(g, t);
    forall p | TombAt(u, p) ensures !AllTombstones(g, u, g.bucket[p]) {
      assert !AllTombstones(g, o.t, g.bucket[p]);
      var q :| 0 <= q < |t.states| && g.bucket[q] == g.bucket[p] && o.t.states[q] != TOMBSTONE;
      assert u.states[q] == o.t.states[q];
    }
  }

  // ---------------------------------------------------------------- steps of the loops

  /** The search for a better slot has come to the entry's own bucket. */
  lemma AtOwnBucket<Key(!new), Val>(g: Layout<Key>, t: Table<Key, Val>, p: int, j: nat)
    requires GoodLayout(g) && Fits(g, t) && 0 <= p < |t.states| && j <= g.rank(t.keys[p], p)
    requires StopFrom(g, t, p, 0) == StopFrom(g, t, p, j) && g.path(t.keys[p], j) == g.bucket[p]
    ensures Target(g, t, p) == p && StopPsl(g, t, p) == InSlots(j, g.K)
  {
    hide InSlots;
    RankBounds(g, t.keys[p], p);
    assert g.rank(t.keys[p], g.path(t.keys[p], j)) == j;
  }

  /** It has come to an earlier bucket with a slot that holds no entry. */
  lemma AtFreeSlot<Key(!new), Val>(g: Layout<Key>, t: Table<Key, Val>, p: int, j: nat, x: int)
    requires GoodLayout(g) && Fits(g, t) && 0 <= p < |t.states| && j <= g.rank(t.keys[p], p)
    requires StopFrom(g, t, p, 0) == StopFrom(g, t, p, j) && g.path(t.keys[p], j) != g.bucket[p]
    requires 0 <= g.path(t.keys[p], j) && g.path(t.keys[p], j) + g.K <= |t.states|
    requires x == FreeFrom(Loaded(t.states, g.path(t.keys[p], j), g.K), 0, g.K) < g.K
    ensures Target(g, t, p) == g.path(t.keys[p], j) + x && StopPsl(g, t, p) == InSlots(j, g.K)
  {
    hide InSlots, GoodLayout, Loaded, FreeFrom;
    var k, b := t.keys[p], g.path(t.keys[p], j);
    RankBounds(g, k, p);
    BucketRange(g, k, j);
    FreeInSlice(t.states, b, g.K);
    assert !IsHash(t.states[b + x]) && g.bucket[b + x] == b;
    assert HasFree(g, t, b);
  }

  /** It goes on past a bucket full of entries. */
  lemma PastFullBucket<Key(!new), Val>(g: Layout<Key>, t: Table<Key, Val>, p: int, j: nat)
    requires GoodLayout(g) && Fits(g, t) && 0 <= p < |t.states| && j <= g.rank(t.keys[p], p)
    requires StopFrom(g, t, p, 0) == StopFrom(g, t, p, j) && g.path(t.keys[p], j) != g.bucket[p]
    requires 0 <= g.path(t.keys[p], j) && g.path(t.keys[p], j) + g.K <= |t.states|
    requires g.K == FreeFrom(Loaded(t.states, g.path(t.keys[p], j), g.K), 0, g.K)
    ensures j + 1 <= g.rank(t.keys[p], p) && StopFrom(g, t, p, 0) == StopFrom(g, t, p, j + 1)
  {
    var k, b := t.keys[p], g.path(t.keys[p], j);
    RankBounds(g, k, p);
    BucketRange(g, k, j);
    LoadedSize(t.states, b, g.K);
    forall q | 0 <= q < |t.states| && g.bucket[q] == b ensures IsHash(t.states[q]) {
      assert b <= q < b + g.K;
      assert IsHash(Loaded(t.states, b, g.K)[q - b]);
    }
    assert !HasFree(g, t, b);
  }

  lemma PassVisit<Key(!new), Val>(g: Layout<Key>, t: Table<Key, Val>, p: nat, moves: nat, bits: nat)
    requires GoodLayout(g) && Fits(g, t) && Live(t, p)
    ensures Fits(g, Visit(g, t, p))
    ensures PassFrom(g, t, p, moves, bits)
            == PassFrom(g, Visit(g, t, p), p + 1, if Target(g, t, p) == p then moves else moves + 1,
                        Or(bits, StopPsl(g, t, p)))
  {
  }

  lemma PassSkip<Key(!new), Val>(g: Layout<Key>, t: Table<Key, Val>, p: nat, moves: nat, bits: nat)
    requires GoodLayout(g) && Fits(g, t) && p < |t.states| && !Live(t, p)
    ensures PassFrom(g, t, p, moves, bits) == PassFrom(g, t, p + 1, moves, bits)
  {
  }

  lemma PassEnd<Key(!new), Val>(g: Layout<Key>, t: Table<Key, Val>, p: nat, moves: nat, bits: nat)
    requires GoodLayout(g) && Fits(g, t) && p == |t.states|
    ensures PassFrom(g, t, p, moves, bits) == Outcome(t, moves, bits)
  {
  }

  /** How a move changes the two counters. */
  ghost predicate CountsMove<Key, Val>(t: Table<Key, Val>, u: Table<Key, Val>, freed: int) {
    && Count(u.states, EMPTY) == Count(t.states, EMPTY) + freed
    && Count(u.states, TOMBSTONE) == Count(t.states, TOMBSTONE) - freed
  }

  lemma MoveCounts<Key(!new), Val>(g: Layout<Key>, t: Table<Key, Val>, p: int, q: int)
    requires GoodLayout(g) && Fits(g, t) && Live(t, p) && TombAt(t, q)
    ensures Fits(g, Move(g, t, p, q))
    ensures CountsMove(t, Move(g, t, p, q), if HasEmpty(g, t, g.bucket[p]) then 1 else 0)
  {
    var v := Vacate(g, t, p);
    CountUpdate(t.states, p, v.states[p]);
    CountUpdate(v.states, q, g.finger(t.keys[p]));
    assert 0 <= g.finger(t.keys[p]);
  }

  /** In the bucket of the moved entry nothing else changes, nor does it gain or lose its
      only empty slot; so the copy loaded before the bucket was visited stays good. */
  lemma MoveIsLocal<Key(!new), Val>(g: Layout<Key>, t: Table<Key, Val>, p: int, q: int)
    requires GoodLayout(g) && Fits(g, t) && Live(t, p) && TombAt(t, q) && g.bucket[q] != g.bucket[p]
    ensures Fits(g, Move(g, t, p, q))
    ensures HasEmpty(g, Move(g, t, p, q), g.bucket[p]) <==> HasEmpty(g, t, g.bucket[p])
    ensures AgreeBut(g, t, Move(g, t, p, q), g.bucket[p], p)
  {
    var u := Move(g, t, p, q);
    if HasEmpty(g, t, g.bucket[p]) {
      assert EmptyAt(u, p);
    } else {
      forall e | EmptyAt(u, e) ensures g.bucket[e] != g.bucket[p] {
        assert 0 <= g.finger(t.keys[p]);
        assert e != p && e != q && EmptyAt(t, e);
      }
    }
  }

  /** In the bucket at `b` the two tables agree on every slot but `p`. */
  ghost predicate AgreeBut<Key, Val>(g: Layout<Key>, t: Table<Key, Val>, u: Table<Key, Val>, b: int, p: int)
    requires Fits(g, t) && Fits(g, u)
  {
    forall y :: 0 <= y < |t.states| && g.bucket[y] == b && y != p ==> u.states[y] == t.states[y]
  }

  /** The copy `k` of the bucket at `b` is up to date from its slot `x` on. */
  ghost predicate UpToDate<Key, Val>(g: Layout<Key>, t: Table<Key, Val>, k: seq<int>, b: int, x: int)
    requires Fits(g, t)
  {
    && |k| == g.K && 0 <= b && b + g.K <= |t.states|
    && forall y :: 0 <= y < g.K && x <= y ==> k[y] == t.states[b + y] && g.bucket[b + y] == b
  }

  lemma StillUpToDate<Key, Val>(g: Layout<Key>, t: Table<Key, Val>, u: Table<Key, Val>, k: seq<int>, b: int, x: int)
    requires Fits(g, t) && Fits(g, u) && UpToDate(g, t, k, b, x) && AgreeBut(g, t, u, b, b + x)
    ensures UpToDate(g, u, k, b, x + 1)
  {
    forall y | 0 <= y < g.K && x + 1 <= y ensures k[y] == u.states[b + y] && g.bucket[b + y] == b {
      assert k[y] == t.states[b + y];
    }
  }

  lemma AsLoaded<Key(!new), Val>(g: Layout<Key>, t: Table<Key, Val>, b: int)
    requires GoodLayout(g) && Fits(g, t) && 0 <= b < |g.bucket| && g.bucket[b] == b
    ensures 0 <= b && b + g.K <= |t.states|
    ensures UpToDate(g, t, Loaded(t.states, b, g.K), b, 0)
    ensures EMPTY in Loaded(t.states, b, g.K) <==> HasEmpty(g, t, b)
  {
    LoadedHasEmpty(g, t, b);
  }

  lemma UpToDateAt<Key, Val>(g: Layout<Key>, t: Table<Key, Val>, k: seq<int>, b: int, x: int)
    requires Fits(g, t) && UpToDate(g, t, k, b, x) && 0 <= x < g.K
    ensures |k| == g.K && 0 <= b && b + x < |t.states|
    ensures k[x] == t.states[b + x] && g.bucket[b + x] == b
  {
    assert k[x] == t.states[b + x];
  }

  lemma PassesUnfold<Key(!new), Val>(g: Layout<Key>, t: Table<Key, Val>, moves: nat)
    requires GoodLayout(g) && Fits(g, t)
    ensures var o := PassFrom(g, t, 0, 0, 0);
      Passes(g, t, moves) == if o.moves <= 1 then Outcome(o.t, moves + o.moves, o.bits)
        else Passes(g, o.t, moves + o.moves)
    ensures var o := PassFrom(g, t, 0, 0, 0);
      o.moves > 1 ==> PathSum(g, o.t, |g.bucket|) < PathSum(g, t, |g.bucket|)
  {
    hide PassFrom, PathSum, GoodLayout;
    PassLowersPathSum(g, t, 0, 0, 0);
  }

  lemma CountTombstones<Key, Val>(t: Table<Key, Val>)
    ensures HasTombstone(t) <==> Count(t.states, TOMBSTONE) != 0
  {
    if HasTombstone(t) {
      var p :| TombAt(t, p);
      assert t.states[p] in multiset(t.states);
    }
    if TOMBSTONE in multiset(t.states) {
      assert TOMBSTONE in t.states;
      var p :| 0 <= p < |t.states| && t.states[p] == TOMBSTONE;
      assert TombAt(t, p);
    }
  }

  /** `slots` from `off` on have become empty. */
  function Filled(states: seq<int>, off: nat, slots: nat): (r: seq<int>)
    ensures |r| == |states|
  {
    seq(|states|, p requires 0 <= p < |states| => if off <= p < off + slots then EMPTY else states[p])
  }

  lemma FillOne(states: seq<int>, off: nat, slots: nat)
    requires off + slots < |states| && states[off + slots] == TOMBSTONE
    ensures Filled(states, off, slots + 1) == Filled(states, off, slots)[off + slots := EMPTY]
    ensures Count(Filled(states, off, slots + 1), EMPTY) == Count(Filled(states, off, slots), EMPTY) + 1
    ensures Count(Filled(states, off, slots + 1), TOMBSTONE) == Count(Filled(states, off, slots), TOMBSTONE) - 1
  {
    var s := Filled(states, off, slots);
    CountUpdate(s, off + slots, EMPTY);
    assert Filled(states, off, slots + 1) == s[off + slots := EMPTY];
  }

  lemma FillNone(states: seq<int>, off: nat)
    ensures Filled(states, off, 0) == states
  {
  }

  /** The reclaim of dead buckets has been done in the slots below `off`. */
  ghost predicate DeadBelow<Key(!new), Val>(g: Layout<Key>, t: Table<Key, Val>, u: Table<Key, Val>, off: int)
    requires Fits(g, t)
  {
    && |u.states| == |t.states| && u.keys == t.keys && u.vals == t.vals
    && (forall p :: 0 <= p < |t.states| ==>
          u.states[p] == if p < off && AllTombstones(g, t, g.bucket[p]) then EMPTY else t.states[p])
  }

  lemma DeadDone<Key(!new), Val>(g: Layout<Key>, t: Table<Key, Val>, u: Table<Key, Val>, off: int)
    requires Fits(g, t) && DeadBelow(g, t, u, off) && off >= |t.states|
    ensures u == ReclaimDead(g, t)
  {
    assert u.states == ReclaimDead(g, t).states;
  }

  lemma NothingDead<Key(!new), Val>(g: Layout<Key>, t: Table<Key, Val>)
    requires Fits(g, t)
    ensures DeadBelow(g, t, t, 0) && CountsMove(t, t, 0)
  {
  }

  lemma DeadStep<Key(!new), Val>(g: Layout<Key>, t: Table<Key, Val>, u: Table<Key, Val>, b: nat)
    requires GoodLayout(g) && Fits(g, t) && Fits(g, u) && DeadBelow(g, t, u, b) && b < |g.bucket| && g.bucket[b] == b
    ensures b + g.K <= |t.states|
    ensures var dead := forall y :: 0 <= y < g.K ==> Loaded(u.states, b, g.K)[y] == TOMBSTONE;
      && (dead <==> AllTombstones(g, t, b))
      && (dead ==> (forall p :: b <= p < b + g.K ==> u.states[p] == TOMBSTONE)
                   && DeadBelow(g, t, u.(states := Filled(u.states, b, g.K)), b + g.K))
      && (!dead ==> DeadBelow(g, t, u, b + g.K))
  {
    var k := Loaded(u.states, b, g.K);
    forall p | b <= p < b + g.K ensures g.bucket[p] == b && k[p - b] == t.states[p] {}
    assert forall y :: 0 <= y < g.K ==> k[y] == t.states[b + y];
    if forall y :: 0 <= y < g.K ==> k[y] == TOMBSTONE {
      forall p | b <= p < b + g.K ensures u.states[p] == TOMBSTONE { assert k[p - b] == TOMBSTONE; }
      assert AllTombstones(g, t, b);
    } else {
      var y :| 0 <= y < g.K && k[y] != TOMBSTONE;
      assert g.bucket[b + y] == b && t.states[b + y] != TOMBSTONE;
    }
  }

  lemma ReclaimAllCounts<Key(!new), Val>(g: Layout<Key>, t: Table<Key, Val>, dup: bool)
    requires Inv(g, t, dup)
    ensures Count(ReclaimAll(t).states, TOMBSTONE) == 0
    ensures Count(ReclaimAll(t).states, EMPTY) == Count(t.states, EMPTY) + Count(t.states, TOMBSTONE)
  {
    hide Bag, Count, Reachable, TombstonesCover, UniqueKeys;
    var u := ReclaimAll(t);
    SameEntriesSameBag(t, u);
    CountTombstones(u);
    Size(t);
    assert forall p :: 0 <= p < |t.states| ==> ValidState(t.states[p]) && ValidState(u.states[p]);
    Size(u);
  }
}
