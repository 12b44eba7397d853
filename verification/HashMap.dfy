/** The open-addressing map of map.hpp over three parallel arrays.

    The proofs about tables are in `Slots`, `Probing`, `Scrubbing` and the other imports; here the
    loops over the arrays are tied to them. */
module HashMap {
  import opened Pow2
  import opened Slots
  import opened Probing
  import opened Rebuild
  import opened Scrubbing
  import opened Sifting
  import opened Listing
  import opened Dictionary
  import opened Conf
  import opened ProbeSeq
  import ML = MapLayout

  datatype Flags = Flags(duplicates: bool, autoScrub: bool, autoShrink: bool)

  datatype InsertOp = Found | Inserted

  /** What `find_next_` comes to: a position, the end of the search, or a full cycle of
      buckets without an empty slot, which the code rules out by an assertion. */
  datatype Next = At(pos: int) | NoMore | Exhausted

  class Map<Key(==, 0, !new), Val(==, 0, !new)> {
    const conf: Sizing
    const flags: Flags
    const hashing: ML.Hashing<Key>
    const shape: Shape
    const matcher: (seq<int>, int) -> seq<int>
    var states: array<int>
    var keys: array<Key>
    var vals: array<Val>
    var numEmpty: int
    var numTombstone: int
    var growThreshold: int
    ghost var layout: Layout<Key>
    ghost var table: Table<Key, Val>

    /** What the constructor was given; it never changes. */
    ghost predicate Configured() {
      conf.Good() && hashing.Valid() && shape.Valid() && GoodMatcher(matcher, conf.kernelSize)
    }

    /** The arrays have the shape the configuration asks for and hold `table`. */
    ghost predicate Shaped()
      reads this, states, keys, vals
    {
      && Configured()
      && states.Length == keys.Length == vals.Length
      && states as object != keys && states as object != vals && keys as object != vals
      && IsPow2(states.Length) && states.Length >= conf.minCapacity
      && growThreshold == conf.GrowThreshold(states.Length)
      && layout == ML.Make(hashing, shape, conf.kernelSize, states.Length / conf.kernelSize, states.Length)
      && table == Table(states[..], keys[..], vals[..])
    }

    ghost predicate Counted()
      reads this
    {
      && numEmpty == Count(table.states, EMPTY)
      && numTombstone == Count(table.states, TOMBSTONE)
      && numEmpty >= growThreshold
    }

    ghost predicate Valid()
      reads this, states, keys, vals
    {
      Shaped() && Counted() && Inv(layout, table, flags.duplicates)
    }

    ghost function Repr(): set<object>
      reads this
    {
      {this, states, keys, vals}
    }

    /** The entries, each as often as the map holds it. */
    ghost function Contents(): multiset<Option<(Key, Val)>>
      reads this
      requires |table.states| == |table.keys| == |table.vals|
    {
      Bag(table)
    }

    lemma ShapedFacts()
      requires Shaped()
      ensures conf.Good() && conf.kernelSize == layout.K > 0 && states.Length > 0
      ensures layout == ML.Make(hashing, shape, layout.K, layout.n, states.Length)
              && states.Length == layout.K * layout.n
      ensures layout.finger == hashing.finger
      ensures table.states == states[..] && table.keys == keys[..] && table.vals == vals[..]
      ensures |table.states| == |table.keys| == |table.vals| == |layout.bucket|
      ensures |table.states| == states.Length == keys.Length == vals.Length
      ensures states as object != keys && states as object != vals && keys as object != vals
      ensures GoodLayout(layout) && Fits(layout, table) && GoodMatcher(matcher, layout.K)
      ensures growThreshold >= 1
    {
      var K, C := conf.kernelSize, states.Length;
      var n := PowDivides(K, C);
      DivMod(C, K, n, 0);
      ML.LayoutIsGood(hashing, shape, K, n);
      ThresholdPositive(conf, C);
    }

    /** What the operations rely on, conjunct by conjunct. */
    lemma Facts() returns (e: int)
      requires Valid()
      ensures conf.Good() && conf.kernelSize == layout.K > 0 && states.Length > 0
      ensures layout == ML.Make(hashing, shape, layout.K, layout.n, states.Length)
              && states.Length == layout.K * layout.n
      ensures layout.finger == hashing.finger
      ensures table.states == states[..] && table.keys == keys[..] && table.vals == vals[..]
      ensures |table.states| == |table.keys| == |table.vals| == |layout.bucket|
      ensures |table.states| == states.Length == keys.Length == vals.Length
      ensures states as object != keys && states as object != vals && keys as object != vals
      ensures GoodLayout(layout) && Fits(layout, table) && GoodMatcher(matcher, layout.K)
      ensures Inv(layout, table, flags.duplicates) && Fingerprinted(layout, table) && TombstonesCover(layout, table)
      ensures numEmpty == Count(table.states, EMPTY) && numTombstone == Count(table.states, TOMBSTONE)
      ensures numEmpty >= growThreshold >= 1
      ensures 0 <= e < states.Length && EmptyAt(table, e)
    {
      hide GoodLayout, GoodMatcher, ML.Make, Reachable, UniqueKeys;
      ShapedFacts();
      e := SomeEmpty(table);
    }

    /** The part of `Facts` that loops over one bucket need. */
    lemma Core()
      requires Valid()
      ensures conf.kernelSize == layout.K && table.keys == keys[..] && table.vals == vals[..]
      ensures |table.states| == |table.keys| == |table.vals| == keys.Length == vals.Length
      ensures GoodLayout(layout) && Fits(layout, table) && Inv(layout, table, flags.duplicates)
              && Fingerprinted(layout, table)
    {
      ghost var _ := Facts();
    }

    /** All that a search needs in order to end; it finds every key only if the map is valid. */
    ghost predicate Searchable()
      reads this, states, keys, vals
    {
      Shaped() && Counted() && Fits(layout, table) && Fingerprinted(layout, table)
    }

    lemma ValidIsSearchable()
      requires Valid()
      ensures Searchable()
    {
    }

    lemma SearchFacts() returns (e: int)
      requires Searchable()
      ensures conf.kernelSize == layout.K > 0 && states.Length > 0
      ensures layout == ML.Make(hashing, shape, layout.K, layout.n, states.Length)
      ensures layout.finger == hashing.finger
      ensures table.states == states[..] && table.keys == keys[..]
      ensures |table.states| == |table.keys| == |table.vals| == |layout.bucket|
      ensures |table.states| == states.Length == keys.Length == vals.Length
      ensures GoodLayout(layout) && Fits(layout, table) && GoodMatcher(matcher, layout.K)
              && Fingerprinted(layout, table)
      ensures 0 <= e < states.Length && EmptyAt(table, e)
    {
      hide GoodLayout, GoodMatcher, ML.Make, Fingerprinted;
      ShapedFacts();
      e := SomeEmpty(table);
    }

    /** The first of the slots a mask names that holds `key`. */
    method Scan(off: int, m: seq<int>, key: Key, ghost ks: seq<Key>) returns (i: nat)
      requires ks == keys[..]
      requires 0 <= off && forall l :: 0 <= l < |m| ==> 0 <= m[l] < |ks| - off
      ensures i <= |m| && Rejected(ks, off, m, i, key)
      ensures i < |m| ==> ks[off + m[i]] == key
    {
      i := 0;
      while i < |m|
        invariant 0 <= i <= |m| && Rejected(ks, off, m, i, key)
      {
        if keys[off + m[i]] == key { return; }
        i := i + 1;
      }
    }

    /** One step of a search: the bucket that `key` probes in step `j`, at offset `off`. */
    method SearchBucket(key: Key, off: int, ghost j: int) returns (pos: int)
      requires Searchable() && 0 <= j < layout.n && off == layout.path(key, j) && NotBefore(layout, table, key, j)
      ensures pos != -1 ==> pos >= 0 && IsFirst(layout, table, key, pos) && layout.rank(key, pos) == j
      ensures pos == -1 ==> NotBefore(layout, table, key, j + 1)
    {
      hide Searchable, GoodLayout, Matches, Loaded, GoodMatcher, IsFirst, NotBefore, Fingerprinted, Rejected, ML.Make;
      ghost var e := SearchFacts();
      ghost var g, t := layout, table;
      BucketMask(g, t, matcher, key, j);
      var k := Loaded(states[..], off, conf.kernelSize);
      var m := matcher(k, hashing.finger(key));
      var i := Scan(off, m, key, t.keys);
      if i < |m| {
        MaskHit(g, t, key, j, m, i);
        return off + m[i];
      }
      MaskMiss(g, t, key, j, m);
      pos := -1;
    }

    /** The search itself: it goes on to the first bucket that holds `key` or has an empty slot. */
    method Search(key: Key) returns (pos: int, probe: Seq, ghost steps: nat)
      requires Searchable()
      ensures pos == -1 ==> EndsAt(layout, table, key, steps) && NotBefore(layout, table, key, steps + 1)
      ensures pos != -1 ==> IsFirst(layout, table, key, pos) && steps == layout.rank(key, pos)
      ensures pos != -1 ==> forall e :: EmptyAt(table, e) ==> layout.rank(key, e) >= steps
      ensures probe == After(shape, hashing.home(key), conf.kernelSize, steps)
    {
      hide Searchable, GoodLayout, Matches, Loaded, GoodMatcher, Seq.Next, Seq.Plus, Start, Masked, IsFirst, NotBefore,
        Fingerprinted, Rejected, ML.Make, EndsAt;
      ghost var e := SearchFacts();
      ghost var g, t := layout, table;
      var K, C := conf.kernelSize, states.Length;
      probe := Start(shape, hashing.home(key));
      ghost var j := 0;
      e := FirstEmpty(g, t, key, e);
      NothingBefore(g, t, key);
      while true
        invariant Searchable() && 0 <= j <= g.rank(key, e) < g.n
        invariant probe == After(shape, hashing.home(key), K, j)
        invariant NotBefore(g, t, key, j)
        decreases g.rank(key, e) - j
      {
        ML.PathOffset(hashing, shape, K, g.n, C, g, key, j);
        BucketRange(g, key, j);
        var off := Masked(probe.Next(), K, C);
        var k := Loaded(states[..], off, K);
        pos := SearchBucket(key, off, j);
        steps := j;
        if pos != -1 {
          EndsLater(g, t, key, g.rank(key, e), j);
          return;
        }
        if EMPTY in k {
          var e' := EmptyGivesStop(g, t, key, j);
          EndsHere(g, t, key, g.rank(key, e), e');
          return;
        }
        NoEmptyGoOn(g, t, key, j, e);
        probe := probe.Plus(K);
        j := j + 1;
      }
    }

    /** The entry found is the first one in probe order; none is found only if there is none. */
    method FindFirst(key: Key) returns (pos: int, probe: Seq, ghost steps: nat)
      requires Valid()
      ensures pos == -1 ==> !Holds(table, key)
      ensures pos != -1 ==> IsFirst(layout, table, key, pos)
      ensures probe == After(shape, hashing.home(key), conf.kernelSize, steps)
      ensures if pos == -1 then EndsAt(layout, table, key, steps) else steps == layout.rank(key, pos)
    {
      hide Valid, Searchable, GoodLayout, GoodMatcher, Inv, Holds, IsFirst, NotBefore, Fingerprinted, TombstonesCover,
        ML.Make, After;
      ValidIsSearchable();
      ghost var _ := Facts();
      pos, probe, steps := Search(key);
      if pos == -1 {
        ghost var e :| EmptyAt(table, e) && layout.rank(key, e) == steps;
        EmptyEndsSearch(layout, table, flags.duplicates, key, e);
      }
    }

    /** The first tombstone of a bucket, or else its first empty slot. */
    method BucketSpot(key: Key, off: int, ghost j: int, ghost e: int) returns (pos: int, isEmpty: bool)
      requires Valid() && 0 <= j < layout.n && off == layout.path(key, j) && FullBefore(layout, table, key, j)
      requires EmptyAt(table, e) && layout.rank(key, e) >= j
      ensures pos == -1 ==> FullBefore(layout, table, key, j + 1) && !isEmpty
      ensures pos != -1 ==> pos >= 0 && FirstFreeSlot(layout, table, key, pos) && layout.rank(key, pos) == j
      ensures pos != -1 ==> if isEmpty then EmptyAt(table, pos) else TombAt(table, pos)
      ensures !isEmpty ==> layout.rank(key, e) > j
    {
      hide Valid, GoodLayout, GoodMatcher, Inv, Loaded, Fingerprinted, TombstonesCover, FirstFreeSlot, FullBefore,
        ML.Make, StateFrom, FreeFrom;
      ghost var _ := Facts();
      ghost var g, t := layout, table;
      var K := conf.kernelSize;
      BucketRange(g, key, j);
      var k := Loaded(states[..], off, K);
      LoadedSize(states[..], off, K);
      var x := StateFrom(k, TOMBSTONE, 0, K);
      if x < K {
        TombstoneFound(g, t, key, j, x);
        TombstoneNoEmpty(g, t, key, j, x);
        NoEmptyGoOn(g, t, key, j, e);
        return off + x, false;
      }
      x := FreeFrom(k, 0, K);
      if x < K {
        FreeFound(g, t, key, j, x);
        FreeIsEmpty(g, t, off, x);
        return off + x, true;
      }
      BucketFull(g, t, key, j);
      FullGoesOn(g, t, key, j, e);
      return -1, false;
    }

    /** Where `key` is, or where it belongs, when there are tombstones to reuse. */
    method PlaceOverTombstones(key: Key) returns (pos: int, found: bool, wasEmpty: bool, probe: Seq, ghost steps: nat)
      requires Valid()
      ensures found ==> !flags.duplicates && IsFirst(layout, table, key, pos)
      ensures probe == After(shape, hashing.home(key), conf.kernelSize, steps)
      ensures if found then steps == layout.rank(key, pos) else EndsAt(layout, table, key, steps)
      ensures !found ==> (flags.duplicates || !Holds(table, key)) && FirstFreeSlot(layout, table, key, pos)
      ensures !found ==> (wasEmpty <==> EmptyAt(table, pos))
    {
      hide Valid, GoodLayout, Matches, Loaded, GoodMatcher, Seq.Next, Seq.Plus, Start, Masked, Inv, Holds, IsFirst,
        NotBefore, Fingerprinted, Rejected, ML.Make, TombstonesCover, FirstFreeSlot, FullBefore, EndsAt;
      ghost var e := Facts();
      ghost var g, t := layout, table;
      var K, C := conf.kernelSize, states.Length;
      probe := Start(shape, hashing.home(key));
      pos := -1;
      ghost var j := 0;
      e := FirstEmpty(g, t, key, e);
      NothingBefore(g, t, key);
      NothingFull(g, t, key);
      while true
        invariant Valid() && 0 <= j <= g.rank(key, e) < g.n
        invariant probe == After(shape, hashing.home(key), K, j)
        invariant !flags.duplicates ==> NotBefore(g, t, key, j)
        invariant pos == -1 ==> FullBefore(g, t, key, j)
        invariant pos != -1 ==> FirstFreeSlot(g, t, key, pos) && TombAt(t, pos)
        decreases g.rank(key, e) - j
      {
        ML.PathOffset(hashing, shape, K, g.n, C, g, key, j);
        BucketRange(g, key, j);
        var off := Masked(probe.Next(), K, C);
        var k := Loaded(states[..], off, K);
        if !flags.duplicates {
          ValidIsSearchable();
          var at := SearchBucket(key, off, j);
          if at != -1 { return at, true, false, probe, j; }
        }
        if pos == -1 {
          var isEmpty;
          pos, isEmpty := BucketSpot(key, off, j, e);
          if isEmpty {
            EmptyMeansAbsent(g, t, flags.duplicates, key, pos, j);
            EndsHere(g, t, key, g.rank(key, e), pos);
            return pos, false, true, probe, j;
          }
        } else if EMPTY in k {
          var e' := EmptyGivesStop(g, t, key, j);
          EmptyMeansAbsent(g, t, flags.duplicates, key, e', j);
          EndsHere(g, t, key, g.rank(key, e), e');
          return pos, false, false, probe, j;
        } else {
          NoEmptyGoOn(g, t, key, j, e);
        }
        probe := probe.Plus(K);
        j := j + 1;
      }
    }

    /** The first empty slot of a bucket, when there are no tombstones. */
    method EmptySpot(key: Key, off: int, ghost j: int, ghost e: int) returns (pos: int)
      requires Valid() && numTombstone == 0 && 0 <= j < layout.n && off == layout.path(key, j)
      requires FullBefore(layout, table, key, j) && EmptyAt(table, e) && layout.rank(key, e) >= j
      ensures pos == -1 ==> FullBefore(layout, table, key, j + 1) && layout.rank(key, e) > j
      ensures pos != -1 ==> pos >= 0 && FirstFreeSlot(layout, table, key, pos) && layout.rank(key, pos) == j
      ensures pos != -1 ==> EmptyAt(table, pos)
    {
      hide Valid, GoodLayout, GoodMatcher, Inv, Loaded, Fingerprinted, TombstonesCover, FirstFreeSlot, FullBefore,
        ML.Make, StateFrom, FreeFrom;
      ghost var _ := Facts();
      ghost var g, t := layout, table;
      var K := conf.kernelSize;
      BucketRange(g, key, j);
      var k := Loaded(states[..], off, K);
      LoadedSize(states[..], off, K);
      var x := FreeFrom(k, 0, K);
      if x < K {
        FreeFound(g, t, key, j, x);
        NoTombstoneLoaded(t, off, K, x);
        FreeIsEmpty(g, t, off, x);
        return off + x;
      }
      BucketFull(g, t, key, j);
      FullGoesOn(g, t, key, j, e);
      pos := -1;
    }

    /** Where `key` is, or where it belongs, when every slot without an entry is empty. */
    method PlaceInEmpty(key: Key) returns (pos: int, found: bool, probe: Seq, ghost steps: nat)
      requires Valid() && numTombstone == 0
      ensures found ==> !flags.duplicates && IsFirst(layout, table, key, pos)
      ensures probe == After(shape, hashing.home(key), conf.kernelSize, steps)
      ensures if found then steps == layout.rank(key, pos) else EndsAt(layout, table, key, steps)
      ensures !found ==> (flags.duplicates || !Holds(table, key)) && FirstFreeSlot(layout, table, key, pos)
      ensures !found ==> EmptyAt(table, pos)
    {
      hide Valid, GoodLayout, Matches, Loaded, GoodMatcher, Seq.Next, Seq.Plus, Start, Masked, Inv, Holds, IsFirst,
        NotBefore, Fingerprinted, Rejected, ML.Make, TombstonesCover, FirstFreeSlot, FullBefore, EndsAt;
      ghost var e := Facts();
      ghost var g, t := layout, table;
      var K, C := conf.kernelSize, states.Length;
      probe := Start(shape, hashing.home(key));
      ghost var j := 0;
      e := FirstEmpty(g, t, key, e);
      NothingBefore(g, t, key);
      NothingFull(g, t, key);
      while true
        invariant Valid() && 0 <= j <= g.rank(key, e) < g.n
        invariant probe == After(shape, hashing.home(key), K, j)
        invariant !flags.duplicates ==> NotBefore(g, t, key, j)
        invariant FullBefore(g, t, key, j)
        decreases g.rank(key, e) - j
      {
        ML.PathOffset(hashing, shape, K, g.n, C, g, key, j);
        BucketRange(g, key, j);
        var off := Masked(probe.Next(), K, C);
        if !flags.duplicates {
          ValidIsSearchable();
          var at := SearchBucket(key, off, j);
          if at != -1 { return at, true, probe, j; }
        }
        pos := EmptySpot(key, off, j, e);
        if pos != -1 {
          EmptyMeansAbsent(g, t, flags.duplicates, key, pos, j);
          EndsHere(g, t, key, g.rank(key, e), pos);
          return pos, false, probe, j;
        }
        probe := probe.Plus(K);
        j := j + 1;
      }
    }

    // ---------------------------------------------------------------- writing the arrays

    /** Arrays for `end` slots; what they hold is not set up yet. */
    method Alloc(end: nat)
      requires Configured() && IsPow2(end) && end >= conf.minCapacity
      modifies this
      ensures Shaped() && states.Length == end
      ensures fresh(states) && fresh(keys) && fresh(vals)
    {
      hide ML.Make, GoodMatcher, IsPow2, Sizing.GrowThreshold;
      growThreshold := conf.GrowThreshold(end);
      vals := new Val[end];
      keys := new Key[end];
      states := new int[end];
      layout := ML.Make(hashing, shape, conf.kernelSize, end / conf.kernelSize, end);
      table := Table(states[..], keys[..], vals[..]);
    }

    /** Every slot becomes empty. */
    method Reset()
      requires Shaped()
      modifies this`table, this`numEmpty, this`numTombstone, states
      ensures Valid() && Contents() == multiset{} && numTombstone == 0 && numEmpty == states.Length
      ensures forall p :: 0 <= p < |table.states| ==> table.states[p] == EMPTY
    {
      hide Configured, ML.Make, Inv, Bag, Count, IsPow2, Sizing.GrowThreshold;
      var end := states.Length;
      for p := 0 to end
        invariant table == old(table) && forall q :: 0 <= q < p ==> states[q] == EMPTY
      {
        states[p] := EMPTY;
      }
      table := table.(states := states[..]);
      numEmpty := end;
      numTombstone := 0;
      ResetFacts();
    }

    lemma ResetFacts()
      requires Shaped() && (forall q :: 0 <= q < states.Length ==> states[q] == EMPTY)
      requires numEmpty == states.Length && numTombstone == 0
      ensures Counted() && Inv(layout, table, flags.duplicates) && Bag(table) == multiset{}
    {
      ShapedFacts();
      AllEmpty(layout, table, flags.duplicates);
      ThresholdFits(conf, states.Length);
    }

    method WriteState(pos: int, s: int)
      requires Shaped() && 0 <= pos < states.Length
      modifies this`table, states
      ensures Shaped() && table == SetState(old(table), pos, s)
    {
      states[pos] := s;
      table := SetState(table, pos, s);
    }

    method WriteEntry(pos: int, key: Key, val: Val)
      requires Shaped() && 0 <= pos < states.Length && Fits(layout, table)
      modifies this`table, states, keys, vals
      ensures Shaped() && table == Store(layout, old(table), pos, key, val)
    {
      keys[pos] := key;
      vals[pos] := val;
      states[pos] := hashing.finger(key);
      table := Store(layout, table, pos, key, val);
    }

    method WriteVal(pos: int, val: Val)
      requires Valid() && Live(table, pos) && |table.vals| == |table.states| == vals.Length
      modifies this`table, vals
      ensures Valid() && table == old(table).(vals := old(table).vals[pos := val])
    {
      hide Configured, Inv, GoodLayout, Bag, ML.Make, IsPow2, Count, Sizing.GrowThreshold;
      AssignKeeps(layout, table, flags.duplicates, pos, val);
      vals[pos] := val;
      table := table.(vals := table.vals[pos := val]);
    }

    // ---------------------------------------------------------------- resizing

    /** The first slot on the path of `key` that holds no entry, when there is an empty one. */
    method FirstFree(key: Key, ghost e: int) returns (pos: nat)
      requires Shaped() && EmptyAt(table, e)
      ensures FirstFreeSlot(layout, table, key, pos)
    {
      hide Shaped, GoodLayout, Loaded, Seq.Next, Seq.Plus, Start, Masked, ML.Make, FirstFreeSlot, FullBefore;
      ShapedFacts();
      ghost var g, t := layout, table;
      var K, C := conf.kernelSize, states.Length;
      var probe := Start(shape, hashing.home(key));
      ghost var j := 0;
      RankBounds(g, key, e);
      NothingFull(g, t, key);
      while true
        invariant 0 <= j <= g.rank(key, e) < g.n
        invariant probe == After(shape, hashing.home(key), K, j)
        invariant FullBefore(g, t, key, j)
        decreases g.rank(key, e) - j
      {
        ML.PathOffset(hashing, shape, K, g.n, C, g, key, j);
        BucketRange(g, key, j);
        var off := Masked(probe.Next(), K, C);
        var k := Loaded(states[..], off, K);
        LoadedSize(states[..], off, K);
        var x := FreeFrom(k, 0, K);
        if x < K {
          FreeFound(g, t, key, j, x);
          return off + x;
        }
        BucketFull(g, t, key, j);
        FullGoesOn(g, t, key, j, e);
        probe := probe.Plus(K);
        j := j + 1;
      }
    }

    /** Re-inserts the entry of the old slot `p`, if there is one. */
    method RefillSlot(state: int, key: Key, val: Val, ghost p: nat, ghost h: Layout<Key>, ghost t: Table<Key, Val>,
                      ghost src: seq<int>)
      returns (ghost src': seq<int>)
      requires Shaped() && Fits(layout, table) && Inv(h, t, flags.duplicates) && |t.states| == |t.keys| == |t.vals|
      requires p < |t.states| && state == t.states[p] && key == t.keys[p] && val == t.vals[p]
      requires Copied(layout, table, flags.duplicates, t, p) && InOldOrder(layout, table, t, src, p)
      requires |Bag(t)| < |table.states|
      modifies this`table, states, keys, vals
      ensures Shaped() && Fits(layout, table) && |table.states| == |old(table).states|
      ensures Copied(layout, table, flags.duplicates, t, p + 1) && InOldOrder(layout, table, t, src', p + 1)
    {
      hide Shaped, Inv, GoodLayout, Copied, FirstFreeSlot, Bag, InOldOrder;
      ghost var g := layout;
      ShapedFacts();
      src' := src;
      if IsHash(state) {
        ghost var e := CopyRoom(g, table, flags.duplicates, t, p);
        var q := FirstFree(key, e);
        CopyStep(g, table, flags.duplicates, h, t, p, q);
        OrderStep(g, table, t, src, p, q);
        FirstFreeBounds(g, table, key, q);
        OrderSize(g, table, t, src, p);
        WriteEntry(q, key, val);
        src' := src[q := p];
      } else {
        CopySkip(g, table, flags.duplicates, t, p);
        OrderSkip(g, table, t, src, p);
      }
    }

    /** Re-inserts the entries of the old arrays, whose contents are `t`, into empty ones. */
    method Refill(oldStates: array<int>, oldKeys: array<Key>, oldVals: array<Val>, ghost h: Layout<Key>,
                  ghost t: Table<Key, Val>)
      requires Shaped() && Fits(layout, table) && Inv(h, t, flags.duplicates) && |t.states| == |t.keys| == |t.vals|
      requires Copied(layout, table, flags.duplicates, t, 0) && |Bag(t)| < |table.states|
      requires forall p :: 0 <= p < |table.states| ==> table.states[p] == EMPTY
      requires t.states == oldStates[..] && t.keys == oldKeys[..] && t.vals == oldVals[..]
      requires {oldStates as object, oldKeys as object, oldVals as object}
               !! {states as object, keys as object, vals as object}
      modifies this`table, states, keys, vals
      ensures Shaped() && Copied(layout, table, flags.duplicates, t, |t.states|) && Recopied(layout, table, t)
    {
      hide Shaped, Inv, GoodLayout, Copied, FirstFreeSlot, Bag, InOldOrder, Recopied;
      var oldEnd := oldStates.Length;
      ghost var g := layout;
      ghost var src := OrderStart(g, table, t);
      for p := 0 to oldEnd
        invariant Shaped() && Fits(g, table) && |table.states| == |old(table).states|
        invariant Copied(g, table, flags.duplicates, t, p) && InOldOrder(g, table, t, src, p)
      {
        src := RefillSlot(oldStates[p], oldKeys[p], oldVals[p], p, h, t, src);
      }
      OrderDone(g, table, t, src);
    }

    /** New arrays of `end` slots with the same entries. */
    method Rehash(end: nat)
      requires Valid() && IsPow2(end) && end >= conf.minCapacity
      requires conf.growBias > 0 && end - (states.Length - (numEmpty + numTombstone)) >= conf.GrowThreshold(end) >= 1
      modifies this
      ensures Valid() && states.Length == end && numTombstone == 0
      ensures fresh(states) && fresh(keys) && fresh(vals)
      ensures |table.states| == |table.keys| == |table.vals| && Contents() == old(Contents())
      ensures Recopied(layout, table, old(table))
    {
      hide Inv, GoodLayout, Bag, Count, Fingerprinted, TombstonesCover, Sizing.Good, Configured, ML.Make, GoodMatcher,
        IsPow2, Copied, Recopied, Sizing.GrowThreshold;
      ghost var _ := Facts();
      ghost var h, t := layout, table;
      SizeFact();
      var oldSize := states.Length - (numEmpty + numTombstone);
      var oldStates, oldKeys, oldVals := states, keys, vals;
      Alloc(end);
      Reset();
      ShapedFacts();
      StartCopy(layout, table, flags.duplicates, t);
      Refill(oldStates, oldKeys, oldVals, h, t);
      ShapedFacts();
      numEmpty := numEmpty - oldSize;
      CopyDone(layout, table, flags.duplicates, t);
    }

    /** Changes the capacity to `want`, or to the next one that the entries fit into. */
    method Resize(want: nat) returns (end: nat)
      requires Valid() && IsPow2(want)
      modifies this
      ensures Valid() && |table.states| == |table.keys| == |table.vals| == states.Length == end
      ensures Contents() == old(Contents()) && conf.growBias > 0
      ensures end == conf.ResizeTarget(|Contents()|, want)
      ensures end != old(states.Length) ==> fresh(states) && fresh(keys) && fresh(vals) && numTombstone == 0
      ensures end != old(states.Length) ==> Recopied(layout, table, old(table))
      ensures end == old(states.Length) ==>
                states == old(states) && keys == old(keys) && vals == old(vals)
                && layout == old(layout) && table == old(table) && numEmpty == old(numEmpty)
                && numTombstone == old(numTombstone)
    {
      hide Valid, Inv, GoodLayout, Bag, Count, Conf.BitCeil, ML.Make, GoodMatcher, IsPow2, Sizing.Good, Recopied;
      ghost var _ := Facts();
      var oldEnd := states.Length;
      var oldSize := oldEnd - (numEmpty + numTombstone);
      SizeFact();
      ThresholdPositive(conf, 0);
      ResizeLeavesReserve(conf, oldSize, want);
      end := Max(want, conf.minCapacity);
      end := Max(end, BitCeil(oldSize + conf.GrowThreshold(BitCeil(oldSize))));
      if end == oldEnd { return; }
      Rehash(end);
      ghost var _ := Facts();
    }

    lemma SizeFact()
      requires Valid()
      ensures |table.states| == |table.keys| == |table.vals|
      ensures |Bag(table)| == states.Length - (numEmpty + numTombstone)
    {
      hide ML.Make, Bag, Count, GoodMatcher, IsPow2;
      Size(table);
    }

    // ---------------------------------------------------------------- inserting

    predicate IsFull()
      reads this
    {
      conf.ShouldGrowPrecalc(numEmpty, growThreshold)
    }

    /** The preemptive growth: afterwards the table is not full. */
    method GrowIfFull()
      requires Valid()
      modifies this
      ensures Valid() && !IsFull() && fresh(Repr() - old(Repr()))
      ensures |table.states| == |table.keys| == |table.vals| && Contents() == old(Contents())
      ensures !old(IsFull()) ==> Repr() == old(Repr()) && layout == old(layout) && table == old(table)
      ensures states.Length == if old(IsFull()) then 2 * old(states.Length) else old(states.Length)
      ensures old(IsFull()) <==> old(numEmpty) * conf.growBias <= old(states.Length)
      ensures old(IsFull()) ==> Recopied(layout, table, old(table)) && numTombstone == 0
    {
      hide Valid, Inv, GoodLayout, Bag, Count, Conf.BitCeil, ML.Make, GoodMatcher, IsPow2, Sizing.Good,
        Sizing.ResizeTarget, Recopied;
      ghost var _ := Facts();
      CapacityFacts();
      GrowsExactly(conf, states.Length, numEmpty);
      if IsFull() {
        SizeFact();
        DoublePow(states.Length);
        DoublingIsNotFull(conf, states.Length, |Bag(table)|);
        DoublingIsEnough(conf, states.Length, |Bag(table)|);
        var _ := Resize(2 * states.Length);
        SizeFact();
        CapacityFacts();
      }
    }

    lemma CapacityFacts()
      requires Valid()
      ensures IsPow2(states.Length) && states.Length >= conf.minCapacity
      ensures conf.Good() && conf.growBias > 0 && conf.minCapacity >= 1
              && growThreshold == conf.GrowThreshold(states.Length)
    {
      ThresholdPositive(conf, 0);
    }

    method InsertNotFull(key: Key) returns (pos: int, op: InsertOp, probe: Seq, ghost steps: nat)
      requires Valid() && !IsFull()
      modifies this, states, keys, vals
      ensures Valid() && Repr() == old(Repr()) && layout == old(layout)
      ensures |table.states| == |table.keys| == |table.vals|
      ensures op.Found? ==>
                !flags.duplicates && Holds(table, key) && IsFirst(layout, table, key, pos) && table == old(table)
      ensures probe == After(shape, hashing.home(key), conf.kernelSize, steps)
      ensures if op.Found? then steps == layout.rank(key, pos) else EndsAt(layout, old(table), key, steps)
      ensures Live(table, pos) && table.keys[pos] == key
      ensures op.Inserted? ==>
                (flags.duplicates || !Holds(old(table), key)) && FirstFreeSlot(layout, old(table), key, pos)
      ensures op.Inserted? ==>
                Fits(layout, old(table)) && table == Store(layout, old(table), pos, key, old(table).vals[pos])
      ensures op.Inserted? ==> Contents() == old(Contents()) + multiset{Some((key, table.vals[pos]))}
    {
      hide Configured, Inv, GoodLayout, Bag, ML.Make, IsPow2, Holds, IsFirst, FirstFreeSlot, Fingerprinted,
        TombstonesCover, Count, EndsAt;
      ghost var _ := Facts();
      ghost var t := table;
      var found, wasEmpty;
      if numTombstone != 0 {
        pos, found, wasEmpty, probe, steps := PlaceOverTombstones(key);
      } else {
        pos, found, probe, steps := PlaceInEmpty(key);
        wasEmpty := true;
      }
      if found {
        op := Found;
        FirstIsHeld(layout, t, key, pos);
        return;
      }
      op := Inserted;
      PlaceFacts(layout, t, flags.duplicates, pos, key);
      WriteEntry(pos, key, vals[pos]);
      if wasEmpty { numEmpty := numEmpty - 1; } else { numTombstone := numTombstone - 1; }
    }

    /** Makes sure that `key` has a slot; a map without duplicates does not add it twice.  `grown` is
        the table after the preemptive growth, if there was one. */
    method Insert(key: Key) returns (pos: int, op: InsertOp, probe: Seq, ghost steps: nat, ghost grown: Table<Key, Val>)
      requires Valid()
      modifies this, states, keys, vals
      ensures Valid() && fresh(Repr() - old(Repr()))
      ensures |old(table.states)| == |old(table.keys)| && (op.Found? <==> !flags.duplicates && Holds(old(table), key))
      ensures Live(table, pos) && |table.states| == |table.keys| == |table.vals| && table.keys[pos] == key
      ensures Contents() == old(Contents()) + if op.Found? then multiset{} else multiset{Some((key, table.vals[pos]))}
      ensures Inv(layout, grown, flags.duplicates) && Bag(grown) == old(Contents())
      ensures !old(IsFull()) ==> Repr() == old(Repr()) && layout == old(layout) && grown == old(table)
      ensures old(IsFull()) ==> Recopied(layout, grown, old(table))
      ensures old(IsFull()) <==> old(numEmpty) * conf.growBias <= old(states.Length)
      ensures states.Length == if old(IsFull()) then 2 * old(states.Length) else old(states.Length)
      ensures (numEmpty + 1) * conf.growBias > states.Length
      ensures op.Found? ==> table == grown && IsFirst(layout, grown, key, pos) && steps == layout.rank(key, pos)
      ensures op.Inserted? ==> FirstFreeSlot(layout, grown, key, pos) && EndsAt(layout, grown, key, steps)
      ensures op.Inserted? ==> table == Store(layout, grown, pos, key, grown.vals[pos])
      ensures probe == After(shape, hashing.home(key), conf.kernelSize, steps)
    {
      hide Valid, Inv, GoodLayout, Bag, ML.Make, IsPow2, IsFirst, FirstFreeSlot, Count, Sizing.ShouldGrowPrecalc, Holds,
        EndsAt, Recopied;
      ghost var _ := Facts();
      ghost var t := table;
      GrowIfFull();
      ghost var _ := Facts();
      SameBagSameKeys(t, table, key);
      grown := table;
      pos, op, probe, steps := InsertNotFull(key);
      ghost var _ := Facts();
      LoadBound();
    }

    /** The reserve of empty slots, one in `growBias`. */
    lemma LoadBound()
      requires Valid()
      ensures (numEmpty + 1) * conf.growBias > states.Length
    {
      hide Inv, ML.Make, Count, GoodMatcher;
      CapacityFacts();
      ghost var _ := Facts();
      GrowsExactly(conf, states.Length, numEmpty);
    }

    /** `m[key] = val`: the slot that `Insert` finds or makes is given the value. */
    method Put(key: Key, val: Val) returns (pos: int, ghost was: Option<Val>)
      requires Valid()
      modifies this, states, keys, vals
      ensures Valid() && fresh(Repr() - old(Repr()))
      ensures |old(table.states)| == |old(table.keys)| && (was.Some? <==> !flags.duplicates && Holds(old(table), key))
      ensures was.Some? ==> Some((key, was.value)) in old(Contents())
      ensures Live(table, pos) && |table.states| == |table.keys| == |table.vals| && table.keys[pos] == key
              && table.vals[pos] == val
      ensures |table.states| == |table.keys| == |table.vals|
      ensures Contents() == old(Contents()) - (if was.Some? then multiset{Some((key, was.value))} else multiset{})
              + multiset{Some((key, val))}
    {
      hide Valid, Inv, GoodLayout, Bag, ML.Make, IsPow2, Count, IsFirst, FirstFreeSlot, IsFull, EndsAt, Holds, After;
      var op, probe;
      ghost var steps, grown;
      pos, op, probe, steps, grown := Insert(key);
      ghost var t := table;
      ghost var _ := Facts();
      AssignKeeps(layout, t, flags.duplicates, pos, val);
      was := if op.Found? then Some(t.vals[pos]) else None;
      WriteVal(pos, val);
    }

    // ---------------------------------------------------------------- scrubbing

    /** The slot upstream that the entry at `oldPos` may move to, or `oldPos` itself. */
    method Upstream(oldPos: int, oldOff: int) returns (newPos: int, psl: nat)
      requires Shaped() && GoodLayout(layout) && Fits(layout, table) && Live(table, oldPos)
               && oldOff == layout.bucket[oldPos]
      ensures newPos == Target(layout, table, oldPos) && psl == StopPsl(layout, table, oldPos)
    {
      hide Shaped, GoodLayout, Loaded, Seq.Next, Seq.Plus, Start, Masked, ML.Make, Target, StopFrom, StopPsl;
      ShapedFacts();
      ghost var g, t := layout, table;
      var K, C := conf.kernelSize, states.Length;
      var key := keys[oldPos];
      var probe := Start(shape, hashing.home(key));
      ghost var j := 0;
      RankBounds(g, key, oldPos);
      while true
        invariant 0 <= j <= g.rank(key, oldPos) < g.n
        invariant probe == After(shape, hashing.home(key), K, j)
        invariant StopFrom(g, t, oldPos, 0) == StopFrom(g, t, oldPos, j)
        decreases g.rank(key, oldPos) - j
      {
        ML.PathOffset(hashing, shape, K, g.n, C, g, key, j);
        BucketRange(g, key, j);
        AfterPsl(shape, hashing.home(key), K, j);
        var newOff := Masked(probe.Next(), K, C);
        if newOff == oldOff {
          AtOwnBucket(g, t, oldPos, j);
          return oldPos, probe.psl;
        }
        LoadedSize(states[..], newOff, K);
        var k := Loaded(states[..], newOff, K);
        var x := FreeFrom(k, 0, K);
        if x < K {
          AtFreeSlot(g, t, oldPos, j, x);
          return newOff + x, probe.psl;
        }
        PastFullBucket(g, t, oldPos, j);
        probe := probe.Plus(K);
        j := j + 1;
      }
    }

    method MoveUp(oldPos: int, newPos: int, hasEmpty: bool)
      requires Shaped() && Fits(layout, table) && 0 <= oldPos < states.Length && 0 <= newPos < states.Length
               && oldPos != newPos
      requires hasEmpty <==> HasEmpty(layout, table, layout.bucket[oldPos])
      modifies this`table, states, keys, vals
      ensures Shaped() && table == Move(layout, old(table), oldPos, newPos)
    {
      hide Configured, ML.Make, HasEmpty, IsPow2;
      ShapedFacts();
      WriteEntry(newPos, keys[oldPos], vals[oldPos]);
      WriteState(oldPos, if hasEmpty then EMPTY else TOMBSTONE);
      ghost var u := Move(layout, old(table), oldPos, newPos);
      assert table.states == u.states && table.keys == u.keys && table.vals == u.vals;
    }

    /** Scrubs the slot `p` of the bucket at `oldOff`; `s` is the state it was loaded with. */
    method ScrubSlot(p: nat, s: int, oldOff: int, hasEmpty: bool, moves: nat, bits: nat, ne: int, nt: int)
      returns (moves': nat, bits': nat, ne': int, nt': int)
      requires Shaped() && GoodLayout(layout) && Inv(layout, table, flags.duplicates) && p < |table.states|
               && Fits(layout, table)
      requires s == table.states[p] && oldOff == layout.bucket[p]
      requires hasEmpty <==> HasEmpty(layout, table, oldOff)
      requires ne == Count(table.states, EMPTY) && nt == Count(table.states, TOMBSTONE)
      modifies this`table, states, keys, vals
      ensures Shaped() && Inv(layout, table, flags.duplicates) && Fits(layout, table) && Fits(layout, old(table))
      ensures PassFrom(layout, old(table), p, moves, bits) == PassFrom(layout, table, p + 1, moves', bits')
      ensures ne' == Count(table.states, EMPTY) && nt' == Count(table.states, TOMBSTONE) && ne' >= ne
      ensures hasEmpty <==> HasEmpty(layout, table, oldOff)
      ensures AgreeBut(layout, old(table), table, oldOff, p)
    {
      hide Shaped, GoodLayout, Reachable, TombstonesCover, UniqueKeys, Fingerprinted, Target, StopPsl, Move, HasEmpty,
        Count, Or, PassFrom;
      ghost var g, t := layout, table;
      moves', bits', ne', nt' := moves, bits, ne, nt;
      assert AgreeBut(g, t, t, oldOff, p);
      if !IsHash(s) {
        PassSkip(g, t, p, moves, bits);
        return;
      }
      ShapedFacts();
      VisitKeeps(g, t, flags.duplicates, p);
      PassVisit(g, t, p, moves, bits);
      var newPos, psl := Upstream(p, oldOff);
      if newPos != p {
        MoveCounts(g, t, p, newPos);
        MoveIsLocal(g, t, p, newPos);
        MoveUp(p, newPos, hasEmpty);
        if hasEmpty { ne', nt' := ne' + 1, nt' - 1; }
        moves' := moves' + 1;
      }
      bits' := Or(bits, psl);
    }

    /** Visits the entries of one bucket, whose states are loaded once. */
    method ScrubBucket(oldOff: nat, moves: nat, bits: nat, ne: int, nt: int)
                       returns (moves': nat, bits': nat, ne': int, nt': int)
      requires Shaped() && GoodLayout(layout) && Inv(layout, table, flags.duplicates)
      requires oldOff < |layout.bucket| && layout.bucket[oldOff] == oldOff
      requires ne == Count(table.states, EMPTY) && nt == Count(table.states, TOMBSTONE)
      modifies this`table, states, keys, vals
      ensures Shaped() && Inv(layout, table, flags.duplicates) && Fits(layout, table) && Fits(layout, old(table))
      ensures oldOff + layout.K <= |layout.bucket|
      ensures PassFrom(layout, old(table), oldOff, moves, bits)
              == PassFrom(layout, table, oldOff + layout.K, moves', bits')
      ensures ne' == Count(table.states, EMPTY) && nt' == Count(table.states, TOMBSTONE) && ne' >= ne
    {
      hide Shaped, GoodLayout, ML.Make, Inv, HasEmpty, Count, PassFrom, UpToDate, AgreeBut, Loaded;
      ghost var g, t0 := layout, table;
      ShapedFacts();
      var K := conf.kernelSize;
      moves', bits', ne', nt' := moves, bits, ne, nt;
      AsLoaded(g, table, oldOff);
      var k := Loaded(states[..], oldOff, K);
      LoadedSize(states[..], oldOff, K);
      var hasEmpty := EMPTY in k;
      for x := 0 to K
        invariant Shaped() && Inv(g, table, flags.duplicates) && Fits(g, table)
        invariant hasEmpty <==> HasEmpty(g, table, oldOff)
        invariant UpToDate(g, table, k, oldOff, x)
        invariant PassFrom(g, t0, oldOff, moves, bits) == PassFrom(g, table, oldOff + x, moves', bits')
        invariant ne' == Count(table.states, EMPTY) && nt' == Count(table.states, TOMBSTONE) && ne' >= ne
      {
        ghost var t := table;
        UpToDateAt(g, t, k, oldOff, x);
        moves', bits', ne', nt' := ScrubSlot(oldOff + x, k[x], oldOff, hasEmpty, moves', bits', ne', nt');
        StillUpToDate(g, t, table, k, oldOff, x);
      }
    }

    /** One pass over the whole table. */
    method ScrubPass(ne: int, nt: int) returns (moves: nat, bits: nat, ne': int, nt': int)
      requires Shaped() && GoodLayout(layout) && Inv(layout, table, flags.duplicates)
      requires ne == Count(table.states, EMPTY) && nt == Count(table.states, TOMBSTONE)
      modifies this`table, states, keys, vals
      ensures Shaped() && Inv(layout, table, flags.duplicates) && Fits(layout, old(table))
      ensures PassFrom(layout, old(table), 0, 0, 0) == Outcome(table, moves, bits)
      ensures ne' == Count(table.states, EMPTY) && nt' == Count(table.states, TOMBSTONE) && ne' >= ne
    {
      hide Shaped, GoodLayout, ML.Make, Inv, Count, PassFrom;
      ghost var g, t0 := layout, table;
      ShapedFacts();
      var K, C := conf.kernelSize, states.Length;
      moves, bits, ne', nt' := 0, 0, ne, nt;
      var off := 0;
      ML.FirstBucket(hashing, shape, K, g.n, C, g);
      while off < C
        invariant Shaped() && Inv(g, table, flags.duplicates) && Fits(g, table)
        invariant 0 <= off <= C && (off < C ==> g.bucket[off] == off)
        invariant PassFrom(g, t0, 0, 0, 0) == PassFrom(g, table, off, moves, bits)
        invariant ne' == Count(table.states, EMPTY) && nt' == Count(table.states, TOMBSTONE) && ne' >= ne
      {
        ML.NextBucket(hashing, shape, K, g.n, C, g, off);
        moves, bits, ne', nt' := ScrubBucket(off, moves, bits, ne', nt');
        off := off + K;
      }
      PassEnd(g, table, off, moves, bits);
    }

    /** `not_hash_to_empty` on every bucket. */
    method ReclaimTombstones()
      requires Shaped() && Inv(layout, table, flags.duplicates)
      modifies this`table, states
      ensures Shaped() && table == ReclaimAll(old(table))
    {
      hide Configured, ML.Make, IsPow2, Reachable, TombstonesCover, UniqueKeys;
      ghost var t := table;
      for p := 0 to states.Length
        invariant table == t
        invariant forall q :: 0 <= q < states.Length ==>
                    states[q] == if q < p && t.states[q] == TOMBSTONE then EMPTY else t.states[q]
      {
        assert ValidState(t.states[p]);
        if !IsHash(states[p]) { states[p] := EMPTY; }
      }
      table := ReclaimAll(t);
      assert states[..] == table.states;
    }

    /** A bucket of tombstones becomes a bucket of empty slots. */
    method FillEmpty(off: nat)
      requires Shaped() && GoodLayout(layout) && off + conf.kernelSize <= states.Length == |table.states|
      requires forall p :: off <= p < off + conf.kernelSize ==> table.states[p] == TOMBSTONE
      modifies this`table, states
      ensures Shaped() && table == old(table).(states := Filled(old(table).states, off, conf.kernelSize))
      ensures CountsMove(old(table), table, conf.kernelSize)
    {
      hide Shaped, GoodLayout, Filled, Count;
      ghost var t := table;
      FillNone(t.states, off);
      for x := 0 to conf.kernelSize
        invariant Shaped() && table == t.(states := Filled(t.states, off, x)) && CountsMove(t, table, x)
      {
        FillOne(t.states, off, x);
        WriteState(off + x, EMPTY);
      }
    }

    /** Buckets that consist of tombstones become empty. */
    method ReclaimDeadBuckets() returns (freed: int)
      requires Shaped() && GoodLayout(layout) && Fits(layout, table)
      modifies this`table, states
      ensures Shaped() && Fits(layout, old(table)) && table == ReclaimDead(layout, old(table))
      ensures CountsMove(old(table), table, freed) && freed >= 0
    {
      hide Shaped, GoodLayout, ML.Make, Filled, Count, Loaded, DeadBelow;
      ghost var g, t := layout, table;
      ShapedFacts();
      var K, C := conf.kernelSize, states.Length;
      ML.FirstBucket(hashing, shape, K, g.n, C, g);
      NothingDead(g, t);
      freed := 0;
      var off := 0;
      while off < C
        invariant Shaped() && Fits(g, table) && CountsMove(t, table, freed) && freed >= 0
        invariant 0 <= off <= C && (off < C ==> g.bucket[off] == off)
        invariant DeadBelow(g, t, table, off)
      {
        ShapedFacts();
        ML.NextBucket(hashing, shape, K, g.n, C, g, off);
        DeadStep(g, t, table, off);
        var k := Loaded(states[..], off, K);
        LoadedSize(states[..], off, K);
        if forall y :: 0 <= y < K ==> k[y] == TOMBSTONE {
          FillEmpty(off);
          freed := freed + K;
        }
        off := off + K;
      }
      DeadDone(g, t, table, off);
    }

    /** Moves entries upstream and turns tombstones back into empty slots. */
    method Scrub() returns (moves: nat)
      requires Valid()
      modifies this`table, this`numEmpty, this`numTombstone, states, keys, vals
      ensures Searchable() && GoodLayout(layout) && Fits(layout, old(table))
      ensures table == Scrubbed(layout, old(table)) && moves == ScrubMoves(layout, old(table))
      ensures Contents() == old(Contents())
      ensures conf.kernelSize >= 2 ==> Valid()
    {
      hide Shaped, GoodLayout, Inv, Fingerprinted, Count, Bag, Passes, Reclaim;
      ghost var g, t := layout, table;
      ValidIsShaped();
      ghost var _ := Facts();
      CountTombstones(t);
      ScrubFingerprints(g, t, flags.duplicates);
      ScrubKeeps(g, t, flags.duplicates);
      if numTombstone == 0 { return 0; }
      var bits, ne, nt;
      moves, bits, ne, nt := ScrubPasses();
      AfterPasses(moves, bits, ne, nt);
    }

    /** What follows the passes: the counters are stored and tombstones reclaimed. */
    method AfterPasses(moves: nat, bits: nat, ne: int, nt: int)
      requires Shaped() && GoodLayout(layout) && Inv(layout, table, flags.duplicates) && Fits(layout, table)
      requires ne == Count(table.states, EMPTY) >= growThreshold && nt == Count(table.states, TOMBSTONE)
      modifies this`table, this`numEmpty, this`numTombstone, states
      ensures Shaped() && Counted() && Fits(layout, old(table))
              && table == Reclaim(layout, Outcome(old(table), moves, bits))
    {
      hide Configured, ML.Make, IsPow2, Sizing.GrowThreshold, GoodLayout, Inv, Count;
      numEmpty, numTombstone := ne, nt;
      if moves != 0 {
        if bits == 0 {
          ReclaimAllCounts(layout, table, flags.duplicates);
          ReclaimTombstones();
          numEmpty, numTombstone := numEmpty + nt, 0;
        } else {
          var n := ReclaimDeadBuckets();
          numEmpty, numTombstone := numEmpty + n, numTombstone - n;
        }
      }
    }

    /** Repeats passes until one makes at most one move. */
    method ScrubPasses() returns (moves: nat, bits: nat, ne: int, nt: int)
      requires Valid()
      modifies this`table, states, keys, vals
      ensures Shaped() && GoodLayout(layout) && Inv(layout, table, flags.duplicates) && Fits(layout, old(table))
      ensures Passes(layout, old(table), 0) == Outcome(table, moves, bits)
      ensures ne == Count(table.states, EMPTY) && nt == Count(table.states, TOMBSTONE) && ne >= old(numEmpty)
    {
      hide Valid, Shaped, GoodLayout, ML.Make, Inv, Count, Passes, PassFrom, PathSum;
      ghost var g, t0 := layout, table;
      ghost var _ := Facts();
      ValidIsShaped();
      moves, ne, nt := 0, numEmpty, numTombstone;
      while true
        invariant Shaped() && Inv(g, table, flags.duplicates) && Fits(g, table)
        invariant Passes(g, t0, 0) == Passes(g, table, moves)
        invariant ne == Count(table.states, EMPTY) && nt == Count(table.states, TOMBSTONE) && ne >= old(numEmpty)
        decreases PathSum(g, table, |g.bucket|)
      {
        PassesUnfold(g, table, moves);
        var m;
        m, bits, ne, nt := ScrubPass(ne, nt);
        moves := moves + m;
        if m <= 1 { return; }
        InvFits(g, table, flags.duplicates);
      }
    }

    lemma ValidIsShaped()
      requires Valid()
      ensures Shaped()
    {
    }

    // ---------------------------------------------------------------- erasing

    /** Automatic scrubbing is only sound with buckets of at least two slots. */
    predicate ScrubSafe() { conf.kernelSize >= 2 || !flags.autoScrub }

    /** Marks one slot as no longer in use. */
    method Bury(pos: int, hasEmpty: bool)
      requires Valid() && Live(table, pos) && |layout.bucket| == |table.states| && Fits(layout, table)
      requires hasEmpty <==> HasEmpty(layout, table, layout.bucket[pos])
      modifies this`table, this`numEmpty, this`numTombstone, states
      ensures Valid() && Fits(layout, old(table)) && table == Vacate(layout, old(table), pos)
      ensures Contents() == old(Contents()) - multiset{Some((old(table).keys[pos], old(table).vals[pos]))}
      ensures Some((old(table).keys[pos], old(table).vals[pos])) in old(Contents())
      ensures numEmpty == old(numEmpty) + (if hasEmpty then 1 else 0)
      ensures numTombstone == old(numTombstone) + (if hasEmpty then 0 else 1)
    {
      hide Configured, ML.Make, GoodLayout, IsPow2, Inv, Bag, Count, HasEmpty;
      ghost var _ := Facts();
      VacateKeeps(layout, table, flags.duplicates, pos);
      CountUpdate(table.states, pos, if hasEmpty then EMPTY else TOMBSTONE);
      WriteState(pos, if hasEmpty then EMPTY else TOMBSTONE);
      if hasEmpty { numEmpty := numEmpty + 1; } else { numTombstone := numTombstone + 1; }
    }

    /** Whether a table with the marks of an erase is to shrink. */
    ghost predicate Shrinks(t: Table<Key, Val>)
      requires |t.states| == |t.keys| == |t.vals|
    {
      flags.autoShrink && |t.states| > conf.minCapacity && |Bag(t)| * conf.shrinkBias <= |t.states|
    }

    /** Whether it is to be scrubbed, if the erase left `buried` tombstones in it. */
    ghost predicate Scrubs(t: Table<Key, Val>, buried: int)
      requires |t.states| == |t.keys| == |t.vals|
    {
      !Shrinks(t) && flags.autoScrub && buried != 0 && |t.states| <= Count(t.states, TOMBSTONE) * conf.scrubBias
    }

    /** What an erase leaves when `t` is the table with its marks, in the layout `g`; `same` says that
        the arrays are still those of before. */
    ghost predicate Upkept(g: Layout<Key>, t: Table<Key, Val>, buried: int, same: bool)
      requires |t.states| == |t.keys| == |t.vals|
      reads this
    {
      if Shrinks(t) then
        && conf.growBias > 0 && |table.states| == conf.ResizeTarget(|Bag(t)|, |t.states| / 2)
        && (if |table.states| == |t.states| then table == t && layout == g && same
            else numTombstone == 0 && Recopied(layout, table, t))
      else if Scrubs(t, buried) then
        GoodLayout(g) && Fits(g, t) && table == Scrubbed(g, t) && layout == g && same
      else
        table == t && layout == g && same
    }

    /** What an erase does after it has marked its slots; false when positions have become stale. */
    method AutoShrinkAndScrub(numBuried: int) returns (kept: bool)
      requires Valid()
      modifies this, states, keys, vals
      ensures |table.states| == |table.keys| == |table.vals| && Contents() == old(Contents())
      ensures |old(table).states| == |old(table).keys| == |old(table).vals|
      ensures ScrubSafe() || kept ==> Valid()
      ensures kept <==> !Shrinks(old(table)) && !Scrubs(old(table), numBuried)
      ensures Upkept(old(layout), old(table), numBuried, states == old(states) && keys == old(keys)
              && vals == old(vals))
      ensures fresh(Repr() - old(Repr()))
    {
      hide Valid, Inv, GoodLayout, Bag, Count, ML.Make, GoodMatcher, IsPow2, Sizing.Good, Sizing.ResizeTarget, Scrubbed,
        ScrubMoves, Passes, Recopied;
      ghost var _ := Facts();
      CapacityFacts();
      SizeFact();
      if flags.autoShrink && conf.ShouldShrink(states.Length, numEmpty, numTombstone) {
        HalfPow(states.Length);
        var _ := Resize(states.Length / 2);
        return false;
      }
      if flags.autoScrub && numBuried != 0 && conf.ShouldScrub(states.Length, numTombstone) {
        var _ := Scrub();
        return false;
      }
      kept := true;
    }

    method ResetSlot(pos: int, hasEmpty: bool) returns (kept: bool)
      requires Valid() && Live(table, pos) && Fits(layout, table)
      requires hasEmpty <==> HasEmpty(layout, table, layout.bucket[pos])
      modifies this, states, keys, vals
      ensures |table.states| == |table.keys| == |table.vals| && Fits(old(layout), old(table))
      ensures Contents() == old(Contents()) - multiset{Some((old(table).keys[pos], old(table).vals[pos]))}
      ensures Some((old(table).keys[pos], old(table).vals[pos])) in old(Contents())
      ensures ScrubSafe() || kept ==> Valid()
      ensures var t, buried := Vacate(old(layout), old(table), pos), if hasEmpty then 0 else 1;
        && (kept <==> !Shrinks(t) && !Scrubs(t, buried))
        && Upkept(old(layout), t, buried, states == old(states) && keys == old(keys) && vals == old(vals))
      ensures fresh(Repr() - old(Repr()))
    {
      hide Valid, Bag, HasEmpty, Inv, Upkept, Shrinks, Scrubs, GoodLayout, ML.Make, Sizing.Good, Vacate;
      Bury(pos, hasEmpty);
      ghost var _ := Facts();
      kept := AutoShrinkAndScrub(if hasEmpty then 0 else 1);
    }

    /** What erasing the entry at `pos` leaves, and whether positions stay good. */
    ghost predicate ErasedSlot(g: Layout<Key>, t: Table<Key, Val>, pos: int, kept: bool, same: bool)
      requires Fits(g, t) && 0 <= pos < |t.states|
      reads this
    {
      var u, buried := Vacate(g, t, pos), if HasEmpty(g, t, g.bucket[pos]) then 0 else 1;
      (kept <==> !Shrinks(u) && !Scrubs(u, buried)) && Upkept(g, u, buried, same)
    }

    lemma KeptSlot(g: Layout<Key>, t: Table<Key, Val>, pos: int, same: bool)
      requires Fits(g, t) && 0 <= pos < |t.states| && ErasedSlot(g, t, pos, true, same)
      ensures layout == g && table == Vacate(g, t, pos) && same
    {
    }

    /** Erases the entry at `pos`, if there is one. */
    method EraseAt(pos: nat) returns (erased: bool, kept: bool)
      requires Valid() && pos < states.Length
      modifies this, states, keys, vals
      ensures |table.states| == |table.keys| == |table.vals|
              && |old(table.states)| == |old(table.keys)| == |old(table.vals)|
      ensures erased <==> Live(old(table), pos)
      ensures Contents() == if erased
                            then old(Contents()) - multiset{Some((old(table).keys[pos], old(table).vals[pos]))}
                            else old(Contents())
      ensures erased ==> Some((old(table).keys[pos], old(table).vals[pos])) in old(Contents())
      ensures !erased ==> table == old(table) && layout == old(layout) && kept
      ensures erased ==>
                Fits(old(layout), old(table))
                && ErasedSlot(old(layout), old(table), pos, kept,
                              states == old(states) && keys == old(keys) && vals == old(vals))
      ensures erased && kept ==>
                layout == old(layout) && Fits(layout, old(table)) && table == Vacate(layout, old(table), pos)
      ensures ScrubSafe() || kept || !erased ==> Valid()
      ensures kept ==> states == old(states) && keys == old(keys) && vals == old(vals)
      ensures fresh(Repr() - old(Repr()))
    {
      hide Valid, Bag, HasEmpty, Inv, GoodLayout, Loaded, ML.Make, Upkept, Shrinks, Scrubs, Vacate;
      ghost var _ := Facts();
      ghost var g, t := layout, table;
      var K := conf.kernelSize;
      var off := pos - pos % K;
      ML.BucketStart(hashing, shape, K, layout.n, states.Length, layout, pos);
      LoadedHasEmpty(layout, table, off);
      var k := Loaded(states[..], off, K);
      if IsHash(k[pos - off]) {
        kept := ResetSlot(pos, EMPTY in k);
        if kept { KeptSlot(g, t, pos, states == old(states) && keys == old(keys) && vals == old(vals)); }
        erased := true;
      } else {
        erased, kept := false, true;
      }
    }

    /** Erases the first entry of `key`; `at` is where it was, which the code reports if it was kept. */
    method EraseFirst(key: Key) returns (erased: bool, kept: bool, probe: Seq, at: int)
      requires Valid()
      modifies this, states, keys, vals
      ensures |table.states| == |table.keys| == |table.vals|
              && |old(table.states)| == |old(table.keys)| == |old(table.vals)|
      ensures erased <==> Holds(old(table), key)
      ensures erased ==> IsFirst(old(layout), old(table), key, at) && Live(old(table), at) && old(table).keys[at] == key
      ensures erased ==>
                old(layout).rank(key, at) >= 0
                && probe == After(shape, hashing.home(key), conf.kernelSize, old(layout).rank(key, at))
      ensures erased ==> Some((key, old(table).vals[at])) in old(Contents())
      ensures Contents() == old(Contents()) - if erased then multiset{Some((key, old(table).vals[at]))} else multiset{}
      ensures !erased ==> table == old(table) && layout == old(layout) && kept
      ensures erased ==>
                Fits(old(layout), old(table))
                && ErasedSlot(old(layout), old(table), at, kept,
                              states == old(states) && keys == old(keys) && vals == old(vals))
      ensures erased && kept ==>
                layout == old(layout) && Fits(layout, old(table)) && table == Vacate(layout, old(table), at)
      ensures ScrubSafe() || kept || !erased ==> Valid()
      ensures kept ==> states == old(states) && keys == old(keys) && vals == old(vals)
      ensures fresh(Repr() - old(Repr()))
    {
      hide Valid, Bag, HasEmpty, Inv, GoodLayout, Loaded, ML.Make, IsFirst, Holds, Vacate, ErasedSlot, EndsAt, After,
        ScrubSafe;
      ghost var _ := Facts();
      var pos;
      ghost var steps;
      pos, probe, steps := FindFirst(key);
      at := pos;
      if pos == -1 { return false, true, probe, at; }
      FirstIsHeld(layout, table, key, pos);
      erased, kept := EraseAt(pos);
    }

    /** The slot `x` of the bucket at `off`, whose states were loaded as `k`. */
    method EraseSlot(off: nat, x: nat, k: seq<int>, hasEmpty: bool, pred: (Key, Val) -> bool, ghost t0: Table<Key, Val>)
                     returns (erased: nat)
      requires Valid() && Fits(layout, table) && |t0.states| == |t0.keys| == |t0.vals|
      requires x < layout.K && UpToDate(layout, table, k, off, x) && (hasEmpty <==> HasEmpty(layout, table, off))
      requires Sifted(t0, table, pred) && CleanBelow(table, pred, off + x) && Marking(layout, t0, table, pred)
      modifies this`table, this`numEmpty, this`numTombstone, states
      ensures Valid() && Fits(layout, table) && UpToDate(layout, table, k, off, x + 1)
              && (hasEmpty <==> HasEmpty(layout, table, off))
      ensures Sifted(t0, table, pred) && CleanBelow(table, pred, off + x + 1) && Marking(layout, t0, table, pred)
      ensures erased + |Contents()| == |old(Contents())| && (erased == 0 ==> table == old(table))
      ensures numTombstone == old(numTombstone) + if hasEmpty then 0 else erased
    {
      hide Valid, GoodLayout, Inv, HasEmpty, UpToDate, Bag, Vacate, Sifted, CleanBelow, Fingerprinted, Marking;
      ghost var g, t := layout, table;
      Core();
      UpToDateAt(g, t, k, off, x);
      if IsHash(k[x]) && pred(keys[off + x], vals[off + x]) {
        SiftStep(g, t0, t, flags.duplicates, pred, k, off, x);
        MarkOne(g, t0, t, pred, off + x);
        Bury(off + x, hasEmpty);
        erased := 1;
      } else {
        SiftSkip(g, t, pred, k, off, x);
        erased := 0;
      }
    }

    /** Erases the selected entries of one bucket, whose states are loaded once. */
    method EraseInBucket(off: nat, pred: (Key, Val) -> bool, ghost t0: Table<Key, Val>)
                         returns (emptied: nat, buried: nat)
      requires Valid() && off < |layout.bucket| && layout.bucket[off] == off
      requires |t0.states| == |t0.keys| == |t0.vals| && |table.states| == |table.keys| == |table.vals|
      requires Sifted(t0, table, pred) && CleanBelow(table, pred, off) && Marking(layout, t0, table, pred)
      modifies this`table, this`numEmpty, this`numTombstone, states
      ensures Valid() && off + layout.K <= |layout.bucket| && Fits(layout, table)
      ensures Sifted(t0, table, pred) && CleanBelow(table, pred, off + layout.K) && Marking(layout, t0, table, pred)
      ensures emptied + buried + |Contents()| == |old(Contents())| && (emptied + buried == 0 ==> table == old(table))
      ensures numTombstone == old(numTombstone) + buried
    {
      hide Valid, GoodLayout, ML.Make, Inv, HasEmpty, Count, UpToDate, Loaded, Bag, Sifted, CleanBelow, Marking;
      ghost var g, size := layout, |Bag(table)|;
      ghost var _ := Facts();
      var K := conf.kernelSize;
      AsLoaded(g, table, off);
      var k := Loaded(states[..], off, K);
      var hasEmpty := EMPTY in k;
      emptied, buried := 0, 0;
      for x := 0 to K
        invariant Valid() && Fits(g, table) && (hasEmpty <==> HasEmpty(g, table, off)) && UpToDate(g, table, k, off, x)
        invariant Sifted(t0, table, pred) && CleanBelow(table, pred, off + x)
        invariant emptied + buried + |Bag(table)| == size && (emptied + buried == 0 ==> table == old(table))
        invariant Marking(g, t0, table, pred) && numTombstone == old(numTombstone) + buried
      {
        var erased := EraseSlot(off, x, k, hasEmpty, pred, t0);
        if hasEmpty { emptied := emptied + erased; } else { buried := buried + erased; }
      }
    }

    /** Erases every entry that `pred` selects and returns their number. */
    method EraseIf(pred: (Key, Val) -> bool) returns (erased: nat)
      requires Valid()
      modifies this, states, keys, vals
      ensures |table.states| == |table.keys| == |table.vals|
              && |old(table.states)| == |old(table.keys)| == |old(table.vals)|
      ensures Dropped(old(Contents()), Contents(), pred) && erased == |old(Contents())| - |Contents()|
      ensures erased == 0 ==> table == old(table) && layout == old(layout)
      ensures erased == 0 ==> states == old(states) && keys == old(keys) && vals == old(vals)
      ensures erased != 0 ==> Fits(old(layout), old(table))
      ensures erased != 0 ==>
                var t := Marked(old(layout), old(table), pred);
                Upkept(old(layout), t, Buried(old(table), t), states == old(states) && keys == old(keys)
                  && vals == old(vals))
      ensures ScrubSafe() ==> Valid()
      ensures fresh(Repr() - old(Repr()))
    {
      hide Valid, GoodLayout, ML.Make, Inv, Bag, Sifted, CleanBelow, Dropped, Marking, Marked, Upkept, Count;
      ghost var g, t0 := layout, table;
      ghost var _ := Facts();
      var K, C := conf.kernelSize, states.Length;
      ML.FirstBucket(hashing, shape, K, g.n, C, g);
      SiftStart(t0, pred);
      MarkStart(g, t0, pred);
      var emptied: nat, buried: nat := 0, 0;
      var off := 0;
      while off < C
        invariant Valid() && layout == g && states == old(states) && keys == old(keys) && vals == old(vals)
        invariant 0 <= off <= C && (off < C ==> g.bucket[off] == off)
        invariant Fits(g, table)
        invariant Sifted(t0, table, pred) && CleanBelow(table, pred, off)
        invariant emptied + buried + |Bag(table)| == |Bag(t0)| && (emptied + buried == 0 ==> table == t0)
        invariant Marking(g, t0, table, pred) && numTombstone == old(numTombstone) + buried
      {
        ML.NextBucket(hashing, shape, K, g.n, C, g, off);
        var de, db := EraseInBucket(off, pred, t0);
        emptied, buried := emptied + de, buried + db;
        off := off + K;
      }
      SiftDone(t0, table, pred);
      AllMarked(g, t0, table, pred);
      ghost var _ := Facts();
      erased := emptied + buried;
      if erased != 0 { var _ := AutoShrinkAndScrub(buried); }
    }

    /** The slot that is `i`-th in the mask of the bucket at `off`. */
    method EraseKeyAt(key: Key, off: int, k: seq<int>, m: seq<int>, i: nat, hasEmpty: bool, ghost j: int,
                      ghost t0: Table<Key, Val>, ghost u0: Table<Key, Val>)
      returns (erased: nat)
      requires Valid() && Fits(layout, table) && |t0.states| == |t0.keys| == |t0.vals|
      requires 0 <= j < layout.n && off == layout.path(key, j) && |k| == layout.K
      requires i < |m| && Matches(k, layout.finger(key), m) && Swept(table, k, off, m, i, key)
               && (hasEmpty <==> HasEmpty(layout, table, off))
      requires Sifted(t0, table, IsKey(key)) && NotBefore(layout, table, key, j) && EmptiesStay(u0, table)
      requires Marking(layout, t0, table, IsKey(key))
      modifies this`table, this`numEmpty, this`numTombstone, states
      ensures Valid() && Fits(layout, table) && Swept(table, k, off, m, i + 1, key)
              && (hasEmpty <==> HasEmpty(layout, table, off))
      ensures Sifted(t0, table, IsKey(key)) && NotBefore(layout, table, key, j) && EmptiesStay(u0, table)
      ensures erased + |Contents()| == |old(Contents())| && (erased == 0 ==> table == old(table))
      ensures Marking(layout, t0, table, IsKey(key)) && numTombstone == old(numTombstone) + if hasEmpty then 0
              else erased
    {
      hide Valid, GoodLayout, Inv, HasEmpty, Bag, Vacate, Sifted, Swept, Matches, NotBefore, EmptiesStay, Fingerprinted,
        Marking;
      ghost var g, t := layout, table;
      Core();
      SweptNext(t, k, g.finger(key), off, m, i, key);
      if keys[off + m[i]] == key {
        SweepStep(g, t0, u0, t, flags.duplicates, k, off, m, i, key, j);
        MarkOne(g, t0, t, IsKey(key), off + m[i]);
        Bury(off + m[i], hasEmpty);
        erased := 1;
      } else {
        erased := 0;
      }
    }

    /** Erases the entries of `key` in the bucket it probes in step `j`. */
    method EraseKeyInBucket(key: Key, off: int, ghost j: int, ghost t0: Table<Key, Val>)
                            returns (emptied: nat, buried: nat, hasEmpty: bool)
      requires Valid() && Fits(layout, table) && 0 <= j < layout.n && off == layout.path(key, j)
      requires |t0.states| == |t0.keys| == |t0.vals| && Sifted(t0, table, IsKey(key))
               && NotBefore(layout, table, key, j)
      requires Marking(layout, t0, table, IsKey(key))
      modifies this`table, this`numEmpty, this`numTombstone, states
      ensures Valid() && Fits(layout, table) && Sifted(t0, table, IsKey(key)) && NotBefore(layout, table, key, j + 1)
      ensures emptied + buried + |Contents()| == |old(Contents())| && (emptied + buried == 0 ==> table == old(table))
      ensures Marking(layout, t0, table, IsKey(key)) && numTombstone == old(numTombstone) + buried
      ensures hasEmpty ==> !Holds(table, key)
      ensures !hasEmpty ==> forall e :: EmptyAt(old(table), e) ==> layout.rank(key, e) != j
      ensures EmptiesStay(old(table), table)
    {
      hide Valid, GoodLayout, ML.Make, Inv, HasEmpty, Count, Loaded, Bag, Sifted, Swept, Matches, NotBefore, Holds,
        Fingerprinted, TombstonesCover, GoodMatcher, EmptiesStay, Marking;
      ghost var g, u0 := layout, table;
      ghost var _ := Facts();
      BucketMask(g, table, matcher, key, j);
      PathBucket(g, table, key, j);
      var K := conf.kernelSize;
      var k := Loaded(states[..], off, K);
      LoadedSize(states[..], off, K);
      hasEmpty := EMPTY in k;
      var m := matcher(k, hashing.finger(key));
      emptied, buried := 0, 0;
      SweptStart(table, k, off, m, key);
      for i := 0 to |m|
        invariant Valid() && Fits(g, table) && (hasEmpty <==> HasEmpty(g, table, off))
        invariant Sifted(t0, table, IsKey(key)) && NotBefore(g, table, key, j) && Swept(table, k, off, m, i, key)
        invariant emptied + buried + |Bag(table)| == |Bag(u0)| && (emptied + buried == 0 ==> table == u0)
        invariant Marking(g, t0, table, IsKey(key)) && numTombstone == old(numTombstone) + buried
        invariant EmptiesStay(u0, table)
      {
        var erased := EraseKeyAt(key, off, k, m, i, hasEmpty, j, t0, u0);
        if hasEmpty { emptied := emptied + erased; } else { buried := buried + erased; }
      }
      Core();
      SweptDone(g, table, k, j, m, key);
      SweepStops(g, u0, table, flags.duplicates, key, j);
    }

    /** Marks every slot that holds `key`, bucket by bucket along its path. */
    method SweepKey(key: Key) returns (emptied: nat, buried: nat)
      requires Valid()
      modifies this`table, this`numEmpty, this`numTombstone, states
      ensures Valid() && Fits(layout, old(table)) && table == Marked(layout, old(table), IsKey(key))
      ensures |table.states| == |table.keys| == |table.vals| && Dropped(old(Contents()), Contents(), IsKey(key))
      ensures emptied + buried + |Contents()| == |old(Contents())| && (emptied + buried == 0 ==> table == old(table))
      ensures buried == Buried(old(table), table)
    {
      hide Valid, GoodLayout, ML.Make, Inv, Bag, Sifted, Dropped, NotBefore, Holds, EmptiesStay, Seq.Next, Seq.Plus,
        Start, Masked, IsFirst, Marking, Marked, Count, Vacate;
      ghost var g, t0 := layout, table;
      ghost var e := Facts();
      var K, C := conf.kernelSize, states.Length;
      var probe := Start(shape, hashing.home(key));
      emptied, buried := 0, 0;
      ghost var j := 0;
      RankBounds(g, key, e);
      NothingBefore(g, t0, key);
      SiftStart(t0, IsKey(key));
      MarkStart(g, t0, IsKey(key));
      while true
        invariant Valid() && 0 <= j <= g.rank(key, e) < g.n && EmptyAt(table, e) && Fits(g, table)
        invariant probe == After(shape, hashing.home(key), K, j)
        invariant NotBefore(g, table, key, j) && Sifted(t0, table, IsKey(key))
        invariant emptied + buried + |Bag(table)| == |Bag(t0)| && (emptied + buried == 0 ==> table == t0)
        invariant Marking(g, t0, table, IsKey(key)) && numTombstone == old(numTombstone) + buried
        decreases g.rank(key, e) - j
      {
        ML.PathOffset(hashing, shape, K, g.n, C, g, key, j);
        var off := Masked(probe.Next(), K, C);
        ghost var t := table;
        var de, db, hasEmpty := EraseKeyInBucket(key, off, j, t0);
        emptied, buried := emptied + de, buried + db;
        if hasEmpty { break; }
        StillEmpty(t, table, e);
        probe := probe.Plus(K);
        j := j + 1;
      }
      NoneLeft(g, t0, table, key);
      KeyMarked(g, t0, table, key);
      ghost var _ := Facts();
    }

    /** Erases every entry of `key` and returns their number. */
    method EraseAll(key: Key) returns (erased: nat)
      requires Valid()
      modifies this, states, keys, vals
      ensures |table.states| == |table.keys| == |table.vals|
              && |old(table.states)| == |old(table.keys)| == |old(table.vals)|
      ensures Dropped(old(Contents()), Contents(), IsKey(key)) && erased + |Contents()| == |old(Contents())|
      ensures erased == 0 ==> table == old(table) && layout == old(layout)
      ensures erased == 0 ==> states == old(states) && keys == old(keys) && vals == old(vals)
      ensures erased != 0 ==> Fits(old(layout), old(table))
      ensures erased != 0 ==>
                var t := Marked(old(layout), old(table), IsKey(key));
                Upkept(old(layout), t, Buried(old(table), t), states == old(states) && keys == old(keys)
                  && vals == old(vals))
      ensures ScrubSafe() ==> Valid()
      ensures fresh(Repr() - old(Repr()))
    {
      hide Valid, GoodLayout, ML.Make, Inv, Bag, Dropped, Holds, IsFirst, Marked, Upkept, Shrinks, Scrubs, Buried,
        Vacate;
      ghost var g, t0 := layout, table;
      ghost var _ := Facts();
      if !flags.duplicates {
        var one, _, _, at := EraseFirst(key);
        OneKeyDropped(g, t0, table, key, one, at);
        if one {
          OneMarked(g, t0, key, at);
          VacateBuries(g, t0, at);
        }
        return if one then 1 else 0;
      }
      var emptied, buried := SweepKey(key);
      ghost var _ := Facts();
      erased := emptied + buried;
      if erased != 0 { var _ := AutoShrinkAndScrub(buried); }
    }

    // ---------------------------------------------------------------- the whole table

    constructor (conf: Sizing, flags: Flags, hashing: ML.Hashing<Key>, shape: Shape,
                 matcher: (seq<int>, int) -> seq<int>)
      requires conf.Good() && hashing.Valid() && shape.Valid() && GoodMatcher(matcher, conf.kernelSize)
      ensures Valid() && Contents() == multiset{} && states.Length == conf.initCapacity
      ensures numEmpty == states.Length && forall p :: 0 <= p < |table.states| ==> table.states[p] == EMPTY
      ensures this.conf == conf && this.flags == flags && this.hashing == hashing && this.shape == shape
      ensures fresh(states) && fresh(keys) && fresh(vals)
    {
      this.conf := conf;
      this.flags := flags;
      this.hashing := hashing;
      this.shape := shape;
      this.matcher := matcher;
      states := new int[0];
      keys := new Key[0];
      vals := new Val[0];
      new;
      hide Shaped, Counted, Inv, GoodLayout, Bag, Count, ML.Make, GoodMatcher, IsPow2;
      Alloc(conf.initCapacity);
      Reset();
    }

    /** Removes everything; with automatic shrinking the capacity goes back to the initial one. */
    method Clear() returns (end: nat)
      requires Valid()
      modifies this, states
      ensures Valid() && Contents() == multiset{} && numTombstone == 0 && numEmpty == states.Length == end
      ensures end == if flags.autoShrink then conf.initCapacity else old(states.Length)
      ensures fresh(Repr() - old(Repr()))
    {
      hide Inv, Bag, Count, ML.Make, GoodMatcher, IsPow2;
      if flags.autoShrink {
        if states.Length != conf.initCapacity { Alloc(conf.initCapacity); }
      }
      Reset();
      end := states.Length;
    }

    /** Makes room for `want` slots. */
    method Reserve(want: nat) returns (end: nat)
      requires Valid()
      modifies this
      ensures Valid() && |table.states| == |table.keys| == |table.vals| == states.Length == end
      ensures end >= want && end >= old(states.Length) && Contents() == old(Contents()) && conf.growBias > 0
      ensures end == if want <= old(states.Length) then old(states.Length)
              else conf.ResizeTarget(|Contents()|, Max(BitCeil(want), conf.minCapacity))
      ensures want <= old(states.Length) ==> layout == old(layout) && table == old(table)
      ensures end != old(states.Length) ==> Recopied(layout, table, old(table)) && numTombstone == 0
      ensures fresh(Repr() - old(Repr()))
    {
      hide Valid, Inv, Bag, Count, ML.Make, GoodMatcher, IsPow2, Sizing.Good, Recopied;
      ghost var _ := Facts();
      CapacityFacts();
      if want <= states.Length { return states.Length; }
      BitCeilIsPow2(want);
      MinCapacityIsPow2();
      end := Resize(Max(BitCeil(want), conf.minCapacity));
    }

    method ResizeTo(want: nat) returns (end: nat)
      requires Valid()
      modifies this
      ensures Valid() && |table.states| == |table.keys| == |table.vals| == states.Length == end
      ensures conf.growBias > 0 && end == conf.ResizeTarget(|Contents()|, Max(BitCeil(want), conf.minCapacity))
      ensures Contents() == old(Contents())
      ensures end != old(states.Length) ==> Recopied(layout, table, old(table)) && numTombstone == 0
      ensures end == old(states.Length) ==> table == old(table) && layout == old(layout)
      ensures fresh(Repr() - old(Repr()))
    {
      hide Valid, Inv, Bag, Count, ML.Make, GoodMatcher, IsPow2, Sizing.Good, Recopied;
      BitCeilIsPow2(want);
      MinCapacityIsPow2();
      end := Resize(Max(BitCeil(want), conf.minCapacity));
    }

    /** Doubles the capacity. */
    method Grow() returns (end: nat)
      requires Valid()
      modifies this
      ensures Valid() && |table.states| == |table.keys| == |table.vals| == states.Length == end
      ensures end == 2 * old(states.Length) && Contents() == old(Contents()) && numTombstone == 0
      ensures Recopied(layout, table, old(table))
      ensures fresh(Repr() - old(Repr()))
    {
      hide Valid, Inv, Bag, Count, ML.Make, GoodMatcher, IsPow2, Sizing.Good, Recopied;
      CapacityFacts();
      SizeFact();
      ghost var _ := Facts();
      DoublePow(states.Length);
      DoublingIsEnough(conf, states.Length, |Bag(table)|);
      end := Resize(2 * states.Length);
    }

    lemma MinCapacityIsPow2()
      requires Valid()
      ensures IsPow2(conf.minCapacity)
    {
    }

    /** The slots a mask names that hold `key`; only the first one in a map without duplicates. */
    method Collect(off: int, m: seq<int>, key: Key, ghost ks: seq<Key>) returns (hits: seq<int>)
      requires ks == keys[..] && 0 <= off && forall l :: 0 <= l < |m| ==> 0 <= m[l] < |ks| - off
      ensures flags.duplicates || |hits| == 0 ==> hits == Hits(ks, off, m, key)
      ensures |hits| > 0 ==> hits[0] - off in m && 0 <= hits[0] < |ks| && ks[hits[0]] == key
    {
      hits := [];
      for i := 0 to |m|
        invariant hits == Hits(ks, off, m[..i], key)
        invariant |hits| > 0 ==> hits[0] - off in m && 0 <= hits[0] < |ks| && ks[hits[0]] == key
      {
        HitsStep(ks, off, m, i, key);
        if keys[off + m[i]] == key {
          hits := hits + [off + m[i]];
          if !flags.duplicates { return; }
        }
      }
      assert m[..|m|] == m;
    }

    /** The positions of `key`, in the order in which probing comes to them. */
    method ForEachKey(key: Key) returns (found: seq<int>)
      requires Valid()
      ensures InOrder(layout, key, found)
      ensures forall p :: p in found <==> Live(table, p) && table.keys[p] == key
    {
      hide Valid, GoodLayout, Inv, Loaded, Matches, GoodMatcher, Seq.Next, Seq.Plus, Start, Masked, NotBefore,
        Fingerprinted, TombstonesCover, ML.Make, Holds, Listed;
      ghost var e := Facts();
      ghost var g, t := layout, table;
      var K, C := conf.kernelSize, states.Length;
      var s := hashing.finger(key);
      var probe := Start(shape, hashing.home(key));
      found := [];
      ghost var j := 0;
      RankBounds(g, key, e);
      ListStart(g, t, key);
      while true
        invariant 0 <= j <= g.rank(key, e) < g.n
        invariant probe == After(shape, hashing.home(key), K, j)
        invariant Listed(g, t, key, found, j)
        decreases g.rank(key, e) - j
      {
        ML.PathOffset(hashing, shape, K, g.n, C, g, key, j);
        BucketMask(g, t, matcher, key, j);
        var off := Masked(probe.Next(), K, C);
        var k := Loaded(states[..], off, K);
        var m := matcher(k, s);
        var hits := Collect(off, m, key, t.keys);
        if !flags.duplicates && |hits| > 0 {
          ListOnly(g, t, key, found, j, m, hits[0]);
          found := found + [hits[0]];
          return;
        }
        ListBucket(g, t, key, found, j, m);
        found := found + hits;
        if EMPTY in k {
          var e' := EmptyGivesStop(g, t, key, j);
          ListDone(g, t, flags.duplicates, key, found, e');
          return;
        }
        NoEmptyGoOn(g, t, key, j, e);
        probe := probe.Plus(K);
        j := j + 1;
      }
    }

    /** Continues the search for `key` after its position `from`, at which it may have been erased
        meanwhile. */
    method FindNext(from: int, start: Seq, key: Key) returns (r: Next, probe: Seq)
      requires Valid() && Reached(layout, table, key, from)
      requires layout.rank(key, from) >= 0
               && start == After(shape, hashing.home(key), conf.kernelSize, layout.rank(key, from))
      ensures r.Exhausted? <==> flags.duplicates && RunsAway(layout, table, from)
      ensures r.Exhausted? ==> growThreshold <= conf.kernelSize - if Live(table, from) then 1 else 0
      ensures r.At? ==> IsNext(layout, table, key, from, r.pos)
      ensures r.At? ==>
                layout.rank(key, r.pos) >= 0
                && probe == After(shape, hashing.home(key), conf.kernelSize, layout.rank(key, r.pos))
      ensures r.NoMore? && (flags.duplicates || (Live(table, from) && table.keys[from] == key)) ==>
                IsLast(layout, table, key, from)
      ensures r.At? ==> flags.duplicates
      ensures !flags.duplicates ==> probe == start
    {
      hide Valid, GoodLayout, Reached, Loaded, Matches, GoodMatcher, Seq.Next, Seq.Plus, Start, Masked, Inv, IsNext,
        IsLast, NoneBetween, Resume, Fingerprinted, TombstonesCover, Rejected, ML.Make, Above, RunsAway;
      ghost var e := Facts();
      ghost var g, t := layout, table;
      ReachedBounds(g, t, key, from);
      probe := start;
      if !flags.duplicates {
        if Live(t, from) && t.keys[from] == key { OnlyIsLast(g, t, key, from); }
        return NoMore, probe;
      }
      ghost var away := RunsAway(g, t, from);
      if away { NothingAhead(g, t, true, key, from); } else { e := StopAhead(g, t, true, key, from, e); }
      var K, C := conf.kernelSize, states.Length;
      ML.BucketStart(hashing, shape, K, g.n, C, g, from);
      ghost var j := g.rank(key, from);
      RankBounds(g, key, from);
      RankBounds(g, key, e);
      var idx := from % K;
      if idx >= K - 1 {
        ResumeNextBucket(g, t, key, from);
        probe := probe.Plus(K);
        j, idx := j + 1, -1;
      } else {
        ResumeInBucket(g, t, key, from);
      }
      while true
        invariant -1 <= idx && g.rank(key, from) <= j <= g.n && Resume(g, t, key, from, j, idx)
        invariant j == g.rank(key, from) ==> !away
        invariant !away ==> j <= g.rank(key, e)
        invariant probe == After(shape, hashing.home(key), K, j)
        decreases g.n - j
      {
        AfterPsl(shape, hashing.home(key), K, j);
        PslInRange(j, K, g.n);
        if probe.psl >= C {
          ReserveStopsChains(from);
          return Exhausted, probe;
        }
        ML.PathOffset(hashing, shape, K, g.n, C, g, key, j);
        BucketMask(g, t, matcher, key, j);
        var off := Masked(probe.Next(), K, C);
        var k := Loaded(states[..], off, K);
        var m := matcher(k, hashing.finger(key));
        var above := Above(m, idx);
        AboveBounds(m, idx, 0, K);
        var i := Scan(off, above, key, t.keys);
        MatchesIncrease(k, hashing.finger(key), m);
        if i < |above| {
          NextHit(g, t, key, from, j, idx, m, i);
          if away { NextIsNotLast(g, t, key, from, off + above[i]); }
          return At(off + above[i]), probe;
        }
        NextMiss(g, t, key, from, j, idx, m);
        if EMPTY in k {
          var e' := EmptyGivesStop(g, t, key, j);
          NextDone(g, t, true, key, from, e');
          return NoMore, probe;
        }
        if !away { NoEmptyGoOn(g, t, key, j, e); }
        probe := probe.Plus(K);
        j, idx := j + 1, -1;
        ResumeFurther(g, t, key, from, j);
      }
    }

    /** Erases the next entry of `key` after its position `from`. */
    method EraseNext(from: int, start: Seq, key: Key) returns (r: Next, kept: bool, probe: Seq)
      requires Valid() && Reached(layout, table, key, from)
      requires layout.rank(key, from) >= 0
               && start == After(shape, hashing.home(key), conf.kernelSize, layout.rank(key, from))
      modifies this, states, keys, vals
      ensures |table.states| == |table.keys| == |table.vals|
              && |old(table).states| == |old(table).keys| == |old(table).vals|
      ensures r.Exhausted? <==> flags.duplicates && RunsAway(old(layout), old(table), from)
      ensures r.At? ==>
                IsNext(old(layout), old(table), key, from, r.pos)
                && Some((key, old(table).vals[r.pos])) in old(Contents())
      ensures r.At? ==>
                old(layout).rank(key, r.pos) >= 0
                && probe == After(shape, hashing.home(key), conf.kernelSize, old(layout).rank(key, r.pos))
      ensures r.NoMore? && flags.duplicates ==> IsLast(layout, table, key, from)
      ensures Contents() == old(Contents()) - if r.At? then multiset{Some((key, old(table).vals[r.pos]))}
              else multiset{}
      ensures r.At? ==>
                Fits(old(layout), old(table)) && Live(old(table), r.pos)
                && ErasedSlot(old(layout), old(table), r.pos, kept,
                              states == old(states) && keys == old(keys) && vals == old(vals))
      ensures r.At? && kept ==>
                layout == old(layout) && Fits(layout, old(table)) && table == Vacate(layout, old(table), r.pos)
      ensures !r.At? ==> kept && table == old(table) && layout == old(layout)
      ensures ScrubSafe() || kept ==> Valid()
      ensures kept ==> states == old(states) && keys == old(keys) && vals == old(vals)
      ensures fresh(Repr() - old(Repr()))
    {
      hide Valid, Bag, HasEmpty, Inv, GoodLayout, Loaded, ML.Make, IsNext, IsLast, RunsAway, Reached, Vacate,
        ErasedSlot;
      ghost var _ := Facts();
      r, probe := FindNext(from, start, key);
      kept := true;
      if r.At? {
        NextIsLive(layout, table, key, from, r.pos);
        var _, k := EraseAt(r.pos);
        kept := k;
      }
    }

    /** Follows `erase_first_` and `erase_next_` through the entries of `key`, up to the end or to an
        erase after which positions are stale. */
    method EraseEach(key: Key) returns (found: seq<int>, kept: bool, complete: bool)
      requires Valid()
      modifies this, states, keys, vals
      ensures |table.states| == |table.keys| == |table.vals|
              && |old(table).states| == |old(table).keys| == |old(table).vals|
      ensures Chained(old(layout), old(table), key, found)
      ensures InOrder(old(layout), key, found) && forall p :: p in found ==>
                Live(old(table), p) && old(table).keys[p] == key
      ensures Sifted(old(table), table, IsKey(key)) && |found| + |Contents()| == |old(Contents())|
      ensures kept ==> layout == old(layout) && forall p :: Live(old(table), p) && old(table).keys[p] == key ==>
                p in found
      ensures kept ==> Dropped(old(Contents()), Contents(), IsKey(key))
      ensures complete <==> !(kept && flags.duplicates && |found| > 0 && RunsAway(layout, table, found[|found| - 1]))
      ensures growThreshold > conf.kernelSize ==> complete
      ensures ScrubSafe() || kept ==> Valid()
      ensures fresh(Repr() - old(Repr()))
    {
      hide Valid, GoodLayout, Inv, IsFirst, Holds, Chained, RunsAway, Chasing, Bag, Sifted, Dropped, Vacate, ErasedSlot,
        InOrder, ML.Make, After;
      ghost var _ := Facts();
      ghost var g, t0 := layout, table;
      var erased, probe, pos;
      erased, kept, probe, pos := EraseFirst(key);
      if !erased {
        NoneErased(g, t0, key);
        return [], true, true;
      }
      FirstErased(g, t0, table, flags.duplicates, key, pos, kept);
      if kept { found, kept, complete := EraseRest(key, pos, probe, t0); } else { found, complete := [pos], true; }
      ChainLists(g, t0, key, found);
      if kept && !complete { ReserveStopsChains(found[|found| - 1]); }
    }

    /** How small the reserve of empty slots has to be for a chain to run away. */
    lemma ReserveStopsChains(p: int)
      requires Valid() && RunsAway(layout, table, p)
      ensures growThreshold <= conf.kernelSize - if Live(table, p) then 1 else 0
    {
      hide ML.Make, GoodMatcher, Inv;
      ghost var _ := Facts();
      RunawayHasFewEmpties(layout, table, p);
    }

    /** One more call of `erase_next_` after those that erased the slots of `found`. */
    method ChaseNext(key: Key, found: seq<int>, start: Seq, ghost t0: Table<Key, Val>)
                     returns (r: Next, kept: bool, probe: Seq)
      requires Valid() && Inv(layout, t0, flags.duplicates) && Chasing(layout, t0, table, key, found)
      requires layout.rank(key, found[|found| - 1]) >= 0
               && start == After(shape, hashing.home(key), conf.kernelSize, layout.rank(key, found[|found| - 1]))
      modifies this, states, keys, vals
      ensures Chased(old(layout), t0, table, key, if r.At? then found + [r.pos] else found)
      ensures r.At? && kept ==> Chasing(layout, t0, table, key, found + [r.pos]) && layout.rank(key, r.pos) >= 0
      ensures r.At? && kept ==> probe == After(shape, hashing.home(key), conf.kernelSize, layout.rank(key, r.pos))
      ensures !r.At? ==> kept && forall p :: Live(t0, p) && t0.keys[p] == key ==> p in found
      ensures !r.At? ==> Dropped(Bag(t0), Contents(), IsKey(key))
      ensures r.NoMore? ==> !(flags.duplicates && RunsAway(layout, table, found[|found| - 1]))
      ensures r.Exhausted? ==> flags.duplicates && RunsAway(layout, table, found[|found| - 1])
      ensures kept ==>
                Valid() && layout == old(layout) && states == old(states) && keys == old(keys) && vals == old(vals)
      ensures ScrubSafe() ==> Valid()
      ensures fresh(Repr() - old(Repr()))
    {
      hide Valid, GoodLayout, Inv, IsNext, IsLast, Chained, RunsAway, Reached, Bag, Sifted, Dropped, Chasing, Vacate,
        ErasedSlot, InOrder, ML.Make, After, IsKey, IsFirst, Holds, ScrubSafe, HasEmpty, Entry;
      ghost var g, t := layout, table;
      ghost var _ := Facts();
      ChasingFacts(g, t0, t, key, found);
      r, kept, probe := EraseNext(found[|found| - 1], start, key);
      if r.At? {
        OneMoreErased(g, t0, t, table, flags.duplicates, key, found, r.pos, kept);
      } else {
        if r.Exhausted? { NothingAhead(g, t, true, key, found[|found| - 1]); }
        ChainOfErases(g, t0, t, flags.duplicates, key, found);
      }
    }

    method EraseRest(key: Key, first: int, start: Seq, ghost t0: Table<Key, Val>)
                     returns (found: seq<int>, kept: bool, complete: bool)
      requires Valid() && Inv(layout, t0, flags.duplicates) && Chasing(layout, t0, table, key, [first])
      requires layout.rank(key, first) >= 0
               && start == After(shape, hashing.home(key), conf.kernelSize, layout.rank(key, first))
      modifies this, states, keys, vals
      ensures Chased(old(layout), t0, table, key, found) && |found| > 0
      ensures kept ==> layout == old(layout) && forall p :: Live(t0, p) && t0.keys[p] == key ==> p in found
      ensures kept ==> Dropped(Bag(t0), Contents(), IsKey(key))
      ensures complete <==> !(kept && flags.duplicates && RunsAway(layout, table, found[|found| - 1]))
      ensures ScrubSafe() || kept ==> Valid()
      ensures fresh(Repr() - old(Repr()))
    {
      hide Valid, GoodLayout, Inv, IsNext, IsLast, Chained, RunsAway, Reached, Bag, Sifted, Dropped, Chasing, Chased,
        Vacate, ErasedSlot, InOrder, ML.Make, After, Live, IsKey, IsFirst, Holds, ScrubSafe, HasEmpty, Entry;
      ghost var g := layout;
      var probe := start;
      found := [first];
      while true
        invariant Valid() && layout == g && states == old(states) && keys == old(keys) && vals == old(vals)
        invariant Chasing(g, t0, table, key, found) && |found| > 0 && g.rank(key, found[|found| - 1]) >= 0
        invariant probe == After(shape, hashing.home(key), conf.kernelSize, g.rank(key, found[|found| - 1]))
        decreases |t0.states| - |found|
      {
        var r, k;
        r, k, probe := ChaseNext(key, found, probe, t0);
        if !r.At? { return found, true, r.NoMore?; }
        found := found + [r.pos];
        if !k { return found, false, true; }
        ChasingFacts(g, t0, table, key, found);
      }
    }

    /** Follows `find_first_` and `find_next_` through the positions of `key`. */
    method FindEach(key: Key) returns (found: seq<int>, complete: bool)
      requires Valid()
      ensures InOrder(layout, key, found)
      ensures forall p :: p in found <==> Live(table, p) && table.keys[p] == key
      ensures complete <==> !(flags.duplicates && |found| > 0 && RunsAway(layout, table, found[|found| - 1]))
      ensures growThreshold >= conf.kernelSize ==> complete
    {
      hide Valid, GoodLayout, GoodMatcher, Inv, IsFirst, IsNext, IsLast, Fingerprinted, TombstonesCover, ML.Make, Holds,
        Chained, RunsAway, Reached;
      ghost var e := Facts();
      ghost var g, t := layout, table;
      var pos, probe, _ := FindFirst(key);
      if pos == -1 {
        ChainNone(t, key);
        return [], true;
      }
      FirstIsHeld(g, t, key, pos);
      ChainFirst(g, t, key, pos);
      found := [pos];
      while true
        invariant Chained(g, t, key, found) && |found| > 0 && pos == found[|found| - 1]
        invariant Live(t, pos) && t.keys[pos] == key && g.rank(key, pos) >= 0
        invariant probe == After(shape, hashing.home(key), conf.kernelSize, g.rank(key, pos))
        decreases |t.states| - |found|
      {
        var r;
        LiveIsReached(g, t, flags.duplicates, key, pos);
        r, probe := FindNext(pos, probe, key);
        match r {
          case At(q) =>
            ChainStep(g, t, key, found, q);
            ChainShort(g, t, key, found + [q]);
            found, pos := found + [q], q;
          case NoMore =>
            ChainDone(g, t, key, found);
            return found, true;
          case Exhausted =>
            NothingAhead(g, t, true, key, pos);
            ChainDone(g, t, key, found);
            ReserveStopsChains(pos);
            return found, false;
        }
      }
    }

    // ---------------------------------------------------------------- equality

    /** `operator==` on maps without duplicates. */
    method Equal(other: Map<Key, Val>) returns (eq: bool)
      requires Valid() && other.Valid() && !flags.duplicates && !other.flags.duplicates
      ensures |table.states| == |table.keys| == |table.vals|
              && |other.table.states| == |other.table.keys| == |other.table.vals|
      ensures eq <==> Contents() == other.Contents()
      ensures eq <==> AsMap(table) == AsMap(other.table)
    {
      hide Valid, GoodLayout, GoodMatcher, Inv, IsFirst, Fingerprinted, TombstonesCover, ML.Make, Holds, Bag,
        ContainedBelow, AsMap;
      ghost var _ := Facts();
      ghost var _ := other.Facts();
      SameEntriesSameMap(layout, table, other.layout, other.table);
      if this == other { return true; }
      SizeFact();
      other.SizeFact();
      var size, otherSize :=
        states.Length - (numEmpty + numTombstone), other.states.Length - (other.numEmpty + other.numTombstone);
      if size != otherSize { return false; }
      ghost var t, u := table, other.table;
      NothingContained(t, u);
      for p := 0 to states.Length
        invariant ContainedBelow(t, u, p)
      {
        if IsHash(states[p]) {
          var key := keys[p];
          var q, _, _ := other.FindFirst(key);
          if q == -1 {
            MissingKey(t, u, p);
            return false;
          }
          FirstIsHeld(other.layout, u, key, q);
          if vals[p] != other.vals[q] {
            OtherValue(other.layout, t, u, p, q);
            return false;
          }
          SameEntry(t, u, p, q);
        } else {
          NoEntry(t, u, p);
        }
      }
      AllContained(layout, t, u);
      eq := true;
    }
  }
}
