/** The set-associative cache of cache.hpp: states and LRU counters interleaved in one array,
    keys and values beside it. */
module LruCache {
  import opened Pow2
  import opened Slots
  import opened Probing
  import opened Conf
  import opened ProbeSeq
  import opened Kernels
  import opened CacheTable
  import opened CacheResize
  import opened Rebuild
  import opened Sifting
  import ML = MapLayout

  datatype CacheOp = Found | Inserted | Replaced

  class Cache<Key(==, 0, !new), Val(==, 0, !new)> {
    const conf: Sizing
    const duplicates: bool
    const hashing: ML.Hashing<Key>
    const matcher: (seq<int>, int) -> seq<int>
    var data: array<int>
    var keys: array<Key>
    var vals: array<Val>
    var numEmpty: int
    ghost var layout: Layout<Key>
    ghost var table: Table<Key, Val>
    ghost var lrus: seq<int>

    ghost predicate Configured() {
      conf.Good() && hashing.Valid() && GoodMatcher(matcher, conf.kernelSize)
    }

    ghost predicate Shaped()
      reads this, data, keys, vals
    {
      && Configured()
      && keys.Length == vals.Length && data.Length == 2 * keys.Length
      && data as object != keys && data as object != vals && keys as object != vals
      && IsPow2(keys.Length) && keys.Length >= conf.minCapacity
      && layout == ML.Make(hashing, Linear(0), conf.kernelSize, keys.Length / conf.kernelSize, keys.Length)
      && table.keys == keys[..] && table.vals == vals[..]
      && Interleaved(layout, data[..], table.states, lrus)
    }

    /** Everything but the counter of empty slots, which `Resize` settles at the end. */
    ghost predicate Sound()
      reads this, data, keys, vals
    {
      Shaped() && CacheInv(layout, table, lrus, duplicates)
    }

    ghost predicate Valid()
      reads this, data, keys, vals
    {
      Sound() && numEmpty == Count(table.states, EMPTY)
    }

    ghost function Repr(): set<object>
      reads this
    {
      {this, data, keys, vals}
    }

    ghost function Contents(): multiset<Option<(Key, Val)>>
      reads this
      requires |table.states| == |table.keys| == |table.vals|
    {
      Bag(table)
    }

    lemma ShapedFacts()
      requires Shaped()
      ensures conf.Good() && conf.kernelSize == layout.K > 0 && keys.Length == layout.K * layout.n > 0
      ensures layout == ML.Make(hashing, Linear(0), layout.K, layout.n, keys.Length)
      ensures layout.finger == hashing.finger && GoodLayout(layout) && GoodBuckets(layout) && layout.n > 0
      ensures table.keys == keys[..] && table.vals == vals[..] && Fits(layout, table)
      ensures |table.states| == |table.keys| == |table.vals| == |lrus| == |layout.bucket| == keys.Length == vals.Length
      ensures data.Length == 2 * keys.Length && Interleaved(layout, data[..], table.states, lrus)
      ensures data as object != keys && data as object != vals && keys as object != vals
      ensures GoodMatcher(matcher, layout.K)
    {
      var K, C := conf.kernelSize, keys.Length;
      var n := PowDivides(K, C);
      DivMod(C, K, n, 0);
      ML.LayoutIsGood(hashing, Linear(0), K, n);
    }

    lemma Facts()
      requires Sound()
      ensures conf.Good() && conf.kernelSize == layout.K > 0 && keys.Length == layout.K * layout.n > 0
      ensures layout == ML.Make(hashing, Linear(0), layout.K, layout.n, keys.Length)
      ensures layout.finger == hashing.finger && GoodLayout(layout) && GoodBuckets(layout) && layout.n > 0
      ensures table.keys == keys[..] && table.vals == vals[..] && Fits(layout, table)
      ensures |table.states| == |table.keys| == |table.vals| == |lrus| == |layout.bucket| == keys.Length == vals.Length
      ensures data.Length == 2 * keys.Length && Interleaved(layout, data[..], table.states, lrus)
      ensures data as object != keys && data as object != vals && keys as object != vals
      ensures GoodMatcher(matcher, layout.K)
      ensures CacheInv(layout, table, lrus, duplicates) && Fingerprinted(layout, table) && ValidLrus(lrus)
    {
      hide GoodLayout, GoodMatcher, ML.Make, UniqueKeys, AtHome, NoTombstones, GoodBuckets, Interleaved;
      ShapedFacts();
    }

    // ---------------------------------------------------------------- the array

    method WriteState(pos: int, s: int)
      requires Shaped() && 0 <= pos < keys.Length == |table.states|
      modifies this`table, data
      ensures Shaped() && table == SetState(old(table), pos, s)
    {
      hide Configured, ML.Make, IsPow2, Interleaved, GoodBuckets;
      ShapedFacts();
      var K := conf.kernelSize;
      ML.BucketStart(hashing, Linear(0), K, layout.n, keys.Length, layout, pos);
      WriteStateKeeps(layout, data[..], table.states, lrus, pos, s);
      var pos2 := pos + (pos - pos % K);
      ghost var d := data[..];
      data[pos2] := s;
      assert data[..] == d[pos2 := s];
      table := SetState(table, pos, s);
    }

    method WriteLru(pos: int, x: int)
      requires Shaped() && 0 <= pos < keys.Length == |lrus|
      modifies this`lrus, data
      ensures Shaped() && lrus == old(lrus)[pos := x]
    {
      hide Configured, ML.Make, IsPow2, Interleaved, GoodBuckets;
      ShapedFacts();
      var K := conf.kernelSize;
      ML.BucketStart(hashing, Linear(0), K, layout.n, keys.Length, layout, pos);
      WriteLruKeeps(layout, data[..], table.states, lrus, pos, x);
      var at := pos + (pos - pos % K) + K;
      ghost var d := data[..];
      data[at] := x;
      assert data[..] == d[at := x];
      lrus := lrus[pos := x];
    }

    method WriteEntry(pos: int, key: Key, val: Val)
      requires Shaped() && 0 <= pos < keys.Length == |table.states| && Fits(layout, table)
      modifies this`table, data, keys, vals
      ensures Shaped() && table == Store(layout, old(table), pos, key, val)
    {
      hide Configured, ML.Make, IsPow2, Interleaved, GoodBuckets;
      ShapedFacts();
      ghost var t := table;
      keys[pos] := key;
      vals[pos] := val;
      table := table.(keys := keys[..], vals := vals[..]);
      WriteState(pos, hashing.finger(key));
      assert table == Store(layout, t, pos, key, val);
    }

    // ---------------------------------------------------------------- searching

    /** The home bucket of `key`: its offset, its states and its counters. */
    method LoadHome(key: Key) returns (off: int, k: seq<int>, l: seq<int>)
      requires Sound() && layout.n > 0 && |table.states| == |lrus|
      ensures off == layout.path(key, 0) && 0 <= off && off + layout.K <= |table.states|
      ensures k == Loaded(table.states, off, layout.K) && l == Loaded(lrus, off, layout.K) && |k| == |l| == layout.K
    {
      hide Sound, GoodLayout, GoodBuckets, GoodMatcher, Loaded, Masked, CacheInv, Fingerprinted, ML.Make, Interleaved;
      Facts();
      ghost var g, t := layout, table;
      var K, C := conf.kernelSize, keys.Length;
      ML.PathOffset(hashing, Linear(0), K, g.n, C, g, key, 0);
      PathIsBucket(g, t, key);
      off := Masked(Start(Linear(0), hashing.home(key)).Next(), K, C);
      LoadBucket(g, data[..], t.states, lrus, off);
      LoadedSize(t.states, off, K);
      LoadedSize(lrus, off, K);
      k, l := data[2 * off..2 * off + K], data[2 * off + K..2 * off + 2 * K];
    }

    /** The first slot a mask names that holds `key`. */
    method Scan(off: int, m: seq<int>, key: Key, ghost ks: seq<Key>) returns (i: nat)
      requires ks == keys[..] && 0 <= off && forall l :: 0 <= l < |m| ==> 0 <= m[l] < |ks| - off
      ensures i <= |m| && Rejected(ks, off, m, i, key)
      ensures i < |m| ==> ks[off + m[i]] == key
    {
      i := 0;
      while i < |m|
        invariant 0 <= i <= |m| && Rejected(ks, off, m, i, key)
      {
        if keys[off + m[i]] == key { return; }
        i := i + 1;
      }
    }

    /** The first slot of the home bucket that holds `key`. */
    method Locate(key: Key) returns (pos: int)
      requires Sound()
      ensures pos == -1 ==> !Holds(table, key)
      ensures pos != -1 ==> pos >= 0 && IsFirst(layout, table, key, pos)
    {
      hide Sound, GoodLayout, GoodBuckets, Matches, Loaded, GoodMatcher, Masked, CacheInv, Holds, IsFirst, NotBefore,
        Fingerprinted, Rejected, ML.Make, Interleaved;
      Facts();
      ghost var g, t := layout, table;
      NothingBefore(g, t, key);
      BucketMask(g, t, matcher, key, 0);
      var off, k, _ := LoadHome(key);
      var m := matcher(k, hashing.finger(key));
      var i := Scan(off, m, key, t.keys);
      if i < |m| {
        MaskHit(g, t, key, 0, m, i);
        return off + m[i];
      }
      MaskMiss(g, t, key, 0, m);
      HomeSearched(g, t, lrus, duplicates, key);
      pos := -1;
    }

    /** Counts one use of slot `pos`, rescaling its bucket if the counter is at its limit. */
    method Touch(pos: int)
      requires Valid() && 0 <= pos < keys.Length == |lrus| == |layout.bucket|
      modifies this`lrus, data
      ensures Valid() && lrus == Touched(layout, old(lrus), pos)
    {
      hide Shaped, GoodLayout, GoodBuckets, CacheInv, ML.Make, Interleaved, Touched, UpdateLru, Loaded, Count;
      Facts();
      ghost var g, l0 := layout, lrus;
      var K := conf.kernelSize;
      ML.BucketStart(hashing, Linear(0), K, g.n, keys.Length, g, pos);
      var off := pos - pos % K;
      LoadBucket(g, data[..], table.states, lrus, off);
      LoadedSize(lrus, off, K);
      var l := UpdateLru(data[2 * off + K..2 * off + 2 * K], pos - off);
      TouchedIs(g, l0, pos);
      UpdateSize(Loaded(l0, off, K), pos - off);
      WriteLrus(off, l);
      SplicedAll(g, l0, pos, l);
      TouchKeeps(g, table, l0, duplicates, lrus);
    }

    /** Stores the counters of one bucket. */
    method WriteLrus(off: nat, l: seq<int>)
      requires Shaped() && off + |l| <= keys.Length == |lrus|
      modifies this`lrus, data
      ensures Shaped() && off + |l| <= |old(lrus)| && lrus == Spliced(old(lrus), off, l, |l|)
    {
      hide Shaped;
      ghost var l0 := lrus;
      SplicedNone(l0, off, l);
      for i := 0 to |l|
        invariant Shaped() && |lrus| == |l0| && lrus == Spliced(l0, off, l, i)
      {
        SplicedOne(l0, off, l, i);
        WriteLru(off + i, l[i]);
      }
    }

    /** Looks `key` up; a hit counts as a use. */
    method Find(key: Key) returns (pos: int)
      requires Valid()
      modifies this`lrus, data
      ensures Valid() && |old(lrus)| == |layout.bucket|
      ensures pos == -1 ==> !Holds(table, key) && lrus == old(lrus)
      ensures pos != -1 ==>
                0 <= pos < |old(lrus)| && IsFirst(layout, table, key, pos) && lrus == Touched(layout, old(lrus), pos)
    {
      hide Sound, GoodLayout, GoodBuckets, CacheInv, ML.Make, Interleaved, Touched, IsFirst, Holds;
      Facts();
      pos := Locate(key);
      if pos != -1 {
        FirstIsHeld(layout, table, key, pos);
        Touch(pos);
      }
    }

    // ---------------------------------------------------------------- inserting

    /** Where a new entry goes: the first empty slot of its home bucket, or else the first slot
        there with the least counter. */
    method Victim(key: Key) returns (pos: int, full: bool, least: int)
      requires Sound()
      ensures 0 <= pos < keys.Length == |table.states| == |lrus| == |layout.bucket| && layout.rank(key, pos) == 0
      ensures full <==> HomeFull(layout, table, key)
      ensures !full ==> FirstFreeSlot(layout, table, key, pos) && EmptyAt(table, pos)
      ensures full ==> LeastUsed(layout, lrus, key, pos) && Live(table, pos) && least == lrus[pos]
    {
      hide Sound, GoodLayout, GoodBuckets, GoodMatcher, Loaded, CacheInv, Fingerprinted, ML.Make, Interleaved,
        FirstFreeSlot, HomeFull, LeastUsed;
      Facts();
      var off, k, l := LoadHome(key);
      var x := FreeFrom(k, 0, conf.kernelSize);
      if x < conf.kernelSize {
        HomeHasRoom(layout, table, lrus, duplicates, key, x);
        return off + x, false, 0;
      }
      HomeIsFull(layout, table, key);
      var idx;
      least, idx := MinLru(l);
      MinOfBucket(layout, table, lrus, key, idx);
      LoadedSize(lrus, off, conf.kernelSize);
      VictimIsLive(layout, table, lrus, key, off + idx);
      pos, full := off + idx, true;
    }

    /** Makes sure that `key` has a slot in its home bucket. */
    method Insert(key: Key) returns (pos: int, op: CacheOp)
      requires Valid()
      modifies this`table, this`lrus, this`numEmpty, data, keys, vals
      ensures Valid() && 0 <= pos < |table.states| == |table.keys| == |table.vals| == |lrus| == |old(lrus)|
              == |old(table).states|
      ensures |table.states| == |layout.bucket| == |old(table).keys| == |old(table).vals|
      ensures Live(table, pos) && table.keys[pos] == key
      ensures op.Found? <==> !duplicates && Holds(old(table), key)
      ensures op.Found? ==> table == old(table) && lrus == Touched(layout, old(lrus), pos)
      ensures !op.Found? ==> lrus == old(lrus)[pos := DEFAULT_LRU] && layout.rank(key, pos) == 0
      ensures !op.Found? ==>
                Fits(layout, old(table)) && table == Store(layout, old(table), pos, key, old(table).vals[pos])
      ensures op.Inserted? ==>
                EmptyAt(old(table), pos) && Contents() == old(Contents()) + multiset{Some((key, table.vals[pos]))}
      ensures op.Inserted? ==> FirstFreeSlot(layout, old(table), key, pos)
      ensures op.Inserted? <==> !op.Found? && !HomeFull(layout, old(table), key)
      ensures op.Replaced? ==> LeastUsed(layout, old(lrus), key, pos)
      ensures op.Replaced? ==>
                Contents() == old(Contents()) - multiset{Some((old(table).keys[pos], table.vals[pos]))}
                  + multiset{Some((key, table.vals[pos]))}
                && Some((old(table).keys[pos], table.vals[pos])) in old(Contents())
    {
      hide Sound, GoodLayout, GoodBuckets, GoodMatcher, CacheInv, ML.Make, Interleaved, HomeFull, LeastUsed, Bag, Count,
        Holds, IsFirst, Touched, FirstFreeSlot;
      Facts();
      if !duplicates {
        pos := Locate(key);
        if pos != -1 {
          FirstIsHeld(layout, table, key, pos);
          Touch(pos);
          return pos, Found;
        }
      }
      pos, op := InsertNew(key);
    }

    method InsertNew(key: Key) returns (pos: int, op: CacheOp)
      requires Valid() && |table.states| == |table.keys| && (!duplicates ==> !Holds(table, key))
      modifies this`table, this`lrus, this`numEmpty, data, keys, vals
      ensures Valid() && 0 <= pos < |table.states| == |table.keys| == |table.vals| == |lrus| == |old(lrus)|
              == |old(table).states|
      ensures |table.states| == |layout.bucket| == |old(table).keys| == |old(table).vals|
      ensures Live(table, pos) && table.keys[pos] == key
      ensures lrus == old(lrus)[pos := DEFAULT_LRU] && layout.rank(key, pos) == 0
      ensures Fits(layout, old(table)) && table == Store(layout, old(table), pos, key, old(table).vals[pos])
      ensures op == if HomeFull(layout, old(table), key) then Replaced else Inserted
      ensures op.Inserted? ==>
                EmptyAt(old(table), pos) && Contents() == old(Contents()) + multiset{Some((key, table.vals[pos]))}
      ensures op.Inserted? ==> FirstFreeSlot(layout, old(table), key, pos)
      ensures op.Replaced? ==> LeastUsed(layout, old(lrus), key, pos)
      ensures op.Replaced? ==>
                Contents() == old(Contents()) - multiset{Some((old(table).keys[pos], table.vals[pos]))}
                  + multiset{Some((key, table.vals[pos]))}
                && Some((old(table).keys[pos], table.vals[pos])) in old(Contents())
    {
      hide Shaped, GoodLayout, GoodBuckets, GoodMatcher, CacheInv, ML.Make, Interleaved, FirstFreeSlot, HomeFull,
        LeastUsed, Bag, Count, Holds;
      Facts();
      ghost var g, t := layout, table;
      var full, least;
      pos, full, least := Victim(key);
      StoreIsLive(g, t, pos, key, t.vals[pos]);
      if full {
        ReplacedKeeps(g, t, lrus, duplicates, pos, key, t.vals[pos], DEFAULT_LRU);
        op := Replaced;
      } else {
        FilledKeeps(g, t, lrus, duplicates, pos, key, t.vals[pos], DEFAULT_LRU);
        op := Inserted;
      }
      WriteEntry(pos, key, vals[pos]);
      WriteLru(pos, DEFAULT_LRU);
      SettleCount(op);
    }

    /** `num_empty_ -= (op == insert)` */
    method SettleCount(op: CacheOp)
      requires Sound() && numEmpty - (if op.Inserted? then 1 else 0) == Count(table.states, EMPTY)
      modifies this`numEmpty
      ensures Valid()
    {
      if op.Inserted? { numEmpty := numEmpty - 1; }
    }

    /** Inserts `key` if it is not there and gives its slot the value. */
    method Put(key: Key, val: Val) returns (pos: int, op: CacheOp)
      requires Valid()
      modifies this`table, this`lrus, this`numEmpty, data, keys, vals
      ensures Valid() && 0 <= pos < |table.states| == |table.keys| == |table.vals| == |old(table).states|
      ensures |table.states| == |layout.bucket| == |old(table).keys| == |old(table).vals|
      ensures Live(table, pos) && table.keys[pos] == key && table.vals[pos] == val
      ensures op.Found? <==> !duplicates && Holds(old(table), key)
      ensures if op.Inserted? then !Live(old(table), pos) else Live(old(table), pos)
      ensures op.Found? ==> old(table).keys[pos] == key
      ensures pos < |old(lrus)| == |layout.bucket|
      ensures lrus == if op.Found? then Touched(layout, old(lrus), pos) else old(lrus)[pos := DEFAULT_LRU]
      ensures op.Replaced? ==> LeastUsed(layout, old(lrus), key, pos) && HomeFull(layout, old(table), key)
      ensures op.Inserted? ==> FirstFreeSlot(layout, old(table), key, pos) && !HomeFull(layout, old(table), key)
      ensures AgreeElsewhere(old(table), table, pos)
    {
      hide Configured, GoodLayout, GoodBuckets, IsPow2, CacheInv, ML.Make, Interleaved, HomeFull, LeastUsed, Bag, Count,
        Holds, Touched, FirstFreeSlot;
      Facts();
      ghost var t, l := table, lrus;
      pos, op := Insert(key);
      if op.Replaced? { VictimIsLive(layout, t, l, key, pos); }
      AssignCache(layout, table, lrus, duplicates, pos, val);
      vals[pos] := val;
      table := table.(vals := table.vals[pos := val]);
    }

    // ---------------------------------------------------------------- erasing

    method ResetSlot(pos: int)
      requires Valid() && Live(table, pos) && |table.states| == |table.keys| == |table.vals| == keys.Length
      modifies this`table, this`numEmpty, data
      ensures Valid() && table == SetState(old(table), pos, EMPTY)
      ensures Contents() == old(Contents()) - multiset{Some((old(table).keys[pos], old(table).vals[pos]))}
      ensures Some((old(table).keys[pos], old(table).vals[pos])) in old(Contents())
    {
      hide Configured, GoodLayout, GoodBuckets, GoodMatcher, CacheInv, ML.Make, Interleaved, Bag, Count, IsPow2;
      Facts();
      ErasedKeeps(layout, table, lrus, duplicates, pos);
      WriteState(pos, EMPTY);
      numEmpty := numEmpty + 1;
    }

    method EraseAt(pos: nat) returns (erased: bool)
      requires Valid() && pos < keys.Length
      modifies this`table, this`numEmpty, data
      ensures Valid() && |table.states| == |table.keys| == |table.vals|
              && |old(table).states| == |old(table).keys| == |old(table).vals|
      ensures erased <==> Live(old(table), pos)
      ensures Contents() == if erased
                            then old(Contents()) - multiset{Some((old(table).keys[pos], old(table).vals[pos]))}
                            else old(Contents())
      ensures erased ==> Some((old(table).keys[pos], old(table).vals[pos])) in old(Contents())
      ensures table == if erased then SetState(old(table), pos, EMPTY) else old(table)
    {
      hide Sound, GoodLayout, GoodBuckets, GoodMatcher, CacheInv, ML.Make, Interleaved, Bag, Count;
      Facts();
      var K := conf.kernelSize;
      ML.BucketStart(hashing, Linear(0), K, layout.n, keys.Length, layout, pos);
      StateAt(layout, data[..], table.states, lrus, pos);
      if IsHash(data[pos + (pos - pos % K)]) {
        ResetSlot(pos);
        return true;
      }
      return false;
    }

    method EraseFirst(key: Key) returns (erased: bool, ghost at: int)
      requires Valid()
      modifies this`table, this`numEmpty, data
      ensures Valid() && |table.states| == |table.keys| == |table.vals|
              && |old(table).states| == |old(table).keys| == |old(table).vals|
      ensures erased <==> Holds(old(table), key)
      ensures erased ==>
                IsFirst(layout, old(table), key, at) && Live(old(table), at) && table == SetState(old(table), at, EMPTY)
      ensures !erased ==> table == old(table)
      ensures Contents() == old(Contents()) - if erased then multiset{Some((key, old(table).vals[at]))} else multiset{}
      ensures erased ==> Some((key, old(table).vals[at])) in old(Contents())
    {
      hide Sound, GoodLayout, GoodBuckets, GoodMatcher, CacheInv, ML.Make, Interleaved, Bag, Count, IsFirst, Holds;
      Facts();
      var pos := Locate(key);
      at := pos;
      if pos == -1 { return false, at; }
      FirstIsHeld(layout, table, key, pos);
      ResetSlot(pos);
      erased := true;
    }

    method IsLive(p: nat) returns (live: bool)
      requires Valid() && p < keys.Length
      ensures live <==> Live(table, p)
    {
      hide Sound, GoodLayout, GoodBuckets, GoodMatcher, CacheInv, ML.Make, Interleaved, Count;
      Facts();
      ML.BucketStart(hashing, Linear(0), conf.kernelSize, layout.n, keys.Length, layout, p);
      StateAt(layout, data[..], table.states, lrus, p);
      live := IsHash(data[p + (p - p % conf.kernelSize)]);
    }

    /** Erases every entry that `pred` selects and returns their number. */
    method EraseIf(pred: (Key, Val) -> bool) returns (erased: nat)
      requires Valid()
      modifies this`table, this`numEmpty, data
      ensures Valid() && |table.states| == |table.keys| == |table.vals|
              && |old(table).states| == |old(table).keys| == |old(table).vals|
      ensures Dropped(old(Contents()), Contents(), pred) && erased + |Contents()| == |old(Contents())|
      ensures DroppedBelow(old(table), table, pred, |table.states|)
    {
      hide Sound, GoodLayout, GoodBuckets, GoodMatcher, CacheInv, ML.Make, Interleaved, Bag, Count, Sifted, CleanBelow,
        Dropped, DroppedBelow, ML.BucketOf;
      Facts();
      ghost var g, t0 := layout, table;
      SiftStart(t0, pred);
      DropStart(t0, pred);
      erased := 0;
      for p := 0 to keys.Length
        invariant Valid() && |table.states| == |table.keys| == |table.vals| == keys.Length
        invariant Sifted(t0, table, pred) && CleanBelow(table, pred, p) && erased + |Bag(table)| == |Bag(t0)|
        invariant DroppedBelow(t0, table, pred, p)
      {
        ghost var t := table;
        var live := IsLive(p);
        Facts();
        if live && pred(keys[p], vals[p]) {
          ResetSlot(p);
          SiftedOne(t0, t, table, pred, p);
          DropOne(t0, t, pred, p);
          erased := erased + 1;
        } else {
          CleanSkip(t, pred, p);
          DropSkip(t0, t, pred, p);
        }
      }
      SiftDone(t0, table, pred);
    }

    /** `to_empty_if_lru_below` on one bucket, counting the states it changes. */
    method ScrubBucket(off: nat, threshold: int, erased: int, ghost t0: Table<Key, Val>) returns (erased': int)
      requires Shaped() && Fits(layout, t0) && |lrus| == |t0.states| && off < |layout.bucket|
               && layout.bucket[off] == off
      requires table == ScrubbedBelow(t0, lrus, threshold, off)
               && erased == Count(table.states, EMPTY) - Count(t0.states, EMPTY)
      modifies this`table, data
      ensures Shaped() && off + layout.K <= |layout.bucket|
              && table == ScrubbedBelow(t0, lrus, threshold, off + layout.K)
      ensures erased' == Count(table.states, EMPTY) - Count(t0.states, EMPTY)
    {
      hide Shaped, GoodLayout, GoodBuckets, GoodMatcher, ML.Make, Interleaved, Count, ScrubbedBelow, Loaded,
        ToEmptyIfLruBelow, BucketScrubbed;
      ShapedFacts();
      ghost var g := layout;
      var K := conf.kernelSize;
      LoadBucket(g, data[..], table.states, lrus, off);
      ScrubOneBucket(t0, lrus, threshold, off, K);
      var k0, l := data[2 * off..2 * off + K], data[2 * off + K..2 * off + 2 * K];
      var k1 := ToEmptyIfLruBelow(k0, l, threshold);
      erased' := erased;
      for i := 0 to K
        invariant Shaped() && table == ScrubbedBelow(t0, lrus, threshold, off + i)
        invariant erased' == Count(table.states, EMPTY) - Count(t0.states, EMPTY)
      {
        ScrubStep(t0, lrus, threshold, off, K, k0, k1, i);
        ScrubSlot(off + i, k0[i], k1[i], threshold, t0);
        if k0[i] != k1[i] { erased' := erased' + 1; }
      }
    }

    method ScrubSlot(p: nat, before: int, after: int, threshold: int, ghost t0: Table<Key, Val>)
      requires Shaped() && |lrus| == |t0.states| == |t0.keys| == |t0.vals| && p < |t0.states|
               && table == ScrubbedBelow(t0, lrus, threshold, p)
      requires before == t0.states[p] && after == if lrus[p] < threshold then EMPTY else before
      modifies this`table, data
      ensures Shaped() && table == ScrubbedBelow(t0, lrus, threshold, p + 1)
      ensures Count(table.states, EMPTY) == Count(old(table).states, EMPTY) + if before != after then 1 else 0
    {
      hide Shaped, GoodLayout, GoodBuckets, GoodMatcher, ML.Make, Interleaved, Count, ScrubbedBelow;
      ShapedFacts();
      ScrubOne(t0, lrus, threshold, p);
      WriteState(p, after);
    }

    /** Removes the entries whose counter is below `threshold`, which must be below the maximum
        to have any effect, and returns their number. */
    method Scrub(threshold: int) returns (erased: int)
      requires Valid()
      modifies this`table, this`numEmpty, data
      ensures Valid() && |table.keys| == |table.vals| == |table.states|
      ensures |old(table).states| == |old(table).keys| == |old(table).vals|
      ensures if threshold < MAX_LRU then Purged(old(table), table, lrus, threshold) else table == old(table)
      ensures erased == |old(Contents())| - |Contents()|
    {
      hide Configured, IsPow2, GoodLayout, GoodBuckets, CacheInv, ML.Make, Interleaved, Bag, Count, ScrubbedBelow,
        Purged;
      Facts();
      if threshold >= MAX_LRU { return 0; }
      ScrubKeepsCache(layout, table, lrus, duplicates, threshold);
      erased := ScrubAll(threshold);
      numEmpty := numEmpty + erased;
    }

    method ScrubAll(threshold: int) returns (erased: int)
      requires Shaped() && |table.states| == |lrus|
      modifies this`table, data
      ensures Shaped() && |old(table).states| == |lrus| && table == ScrubbedBelow(old(table), lrus, threshold, |lrus|)
      ensures erased == Count(table.states, EMPTY) - Count(old(table).states, EMPTY)
    {
      hide Shaped, GoodLayout, GoodBuckets, GoodMatcher, ML.Make, ML.BucketOf, Interleaved, Count, ScrubbedBelow;
      ShapedFacts();
      ghost var g, t0 := layout, table;
      var K, C := conf.kernelSize, keys.Length;
      ML.FirstBucket(hashing, Linear(0), K, g.n, C, g);
      ScrubNone(t0, lrus, threshold);
      erased := 0;
      var off := 0;
      while off < C
        invariant Shaped() && 0 <= off <= C && (off < C ==> g.bucket[off] == off)
        invariant table == ScrubbedBelow(t0, lrus, threshold, off)
        invariant erased == Count(table.states, EMPTY) - Count(t0.states, EMPTY)
      {
        ML.NextBucket(hashing, Linear(0), K, g.n, C, g, off);
        erased := ScrubBucket(off, threshold, erased, t0);
        off := off + K;
      }
    }

    // ---------------------------------------------------------------- the whole cache

    /** Arrays for `end` slots; what they hold is not set up yet. */
    method Alloc(end: nat)
      requires Configured() && IsPow2(end) && end >= conf.minCapacity
      modifies this
      ensures Shaped() && keys.Length == end
      ensures fresh(data) && fresh(keys) && fresh(vals)
    {
      hide GoodMatcher, ML.Make, Interleaved, StatesOf, LrusOf;
      vals := new Val[end];
      keys := new Key[end];
      data := new int[2 * end];
      ghost var K := conf.kernelSize;
      ghost var n := PowDivides(K, end);
      DivMod(end, K, n, 0);
      layout := ML.Make(hashing, Linear(0), K, end / K, end);
      ML.BucketsAreGood(hashing, Linear(0), K, n);
      MakeSize(K, n, end);
      table := Table(StatesOf(layout, data[..]), keys[..], vals[..]);
      lrus := LrusOf(layout, data[..]);
      AnyArrayWillDo(layout, data[..]);
    }

    lemma MakeSize(K: nat, n: nat, C: nat)
      requires K > 0 && C > 0
      ensures |ML.Make(hashing, Linear(0), K, n, C).bucket| == C
    {
    }

    /** Every slot becomes empty. */
    method Reset()
      requires Shaped()
      modifies this`table, this`lrus, this`numEmpty, data
      ensures Valid() && |table.states| == |table.keys| == |table.vals| == |lrus| == keys.Length
              && Contents() == multiset{} && numEmpty == keys.Length
      ensures forall p :: 0 <= p < |table.states| ==> table.states[p] == EMPTY
    {
      hide Configured, IsPow2, ML.Make, GoodLayout, GoodBuckets, Interleaved, CacheInv, Bag, Count, AllReset;
      ShapedFacts();
      ResetNone(table.states, lrus);
      var end := keys.Length;
      for p := 0 to end
        invariant Shaped() && |table.states| == |lrus| == end && AllReset(table.states, lrus, p)
      {
        ResetOne(table.states, lrus, p);
        WriteState(p, EMPTY);
        WriteLru(p, MAX_LRU);
      }
      numEmpty := end;
      ShapedFacts();
      EmptyCache(layout, table, lrus, duplicates);
    }

    constructor (conf: Sizing, duplicates: bool, hashing: ML.Hashing<Key>, matcher: (seq<int>, int) -> seq<int>)
      requires conf.Good() && hashing.Valid() && GoodMatcher(matcher, conf.kernelSize)
      ensures Valid() && |table.states| == |table.keys| == |table.vals| && Contents() == multiset{}
              && keys.Length == conf.initCapacity
      ensures this.conf == conf && this.duplicates == duplicates && this.hashing == hashing
      ensures fresh(data) && fresh(keys) && fresh(vals)
    {
      this.conf := conf;
      this.duplicates := duplicates;
      this.hashing := hashing;
      this.matcher := matcher;
      data := new int[0];
      keys := new Key[0];
      vals := new Val[0];
      new;
      Alloc(conf.initCapacity);
      Reset();
    }

    // ---------------------------------------------------------------- resizing

    /** Copies the entry of the old slot `p`, unless its new bucket is full of entries used more. */
    method Rehome(p: nat, key: Key, val: Val, lru: int, ghost h: Layout<Key>, ghost t: Table<Key, Val>,
                  ghost tl: seq<int>, ghost src: seq<int>)
      returns (inserted: bool, ghost src': seq<int>)
      requires Sound() && |table.states| == |lrus| == |table.keys| == |table.vals|
               && p < |t.states| == |tl| == |t.keys| == |t.vals|
      requires CacheInv(h, t, tl, duplicates) && GoodLayout(h) && h.n > 0 && h.K == layout.K
      requires Live(t, p) && key == t.keys[p] && val == t.vals[p] && lru == tl[p]
      requires Moved(table, lrus, t, tl, src, p) && Fair(layout, table, lrus, t, tl, src, p)
      requires Orderly(layout, table, lrus, t, tl, src, p)
      modifies this`table, this`lrus, data, keys, vals
      ensures Sound() && |table.states| == |lrus| == |table.keys| == |table.vals| == |old(table).states|
      ensures Moved(table, lrus, t, tl, src', p + 1) && Fair(layout, table, lrus, t, tl, src', p + 1)
      ensures Orderly(layout, table, lrus, t, tl, src', p + 1)
      ensures Count(table.states, EMPTY) == Count(old(table).states, EMPTY) - if inserted then 1 else 0
      ensures Refines(layout, h) ==>
                |old(table).states| == |old(table).keys| == |old(table).vals|
                && Bag(table) == Bag(old(table)) + multiset{Some((key, val))}
    {
      hide Shaped, GoodLayout, GoodBuckets, Interleaved, CacheInv, ML.Make, GoodMatcher, Bag, Count, Moved, Fair,
        Orderly, Refines, HomeFull, LeastUsed, FirstFreeSlot, Holds;
      Facts();
      ghost var g, u, ul := layout, table, lrus;
      NewHere(g, u, ul, h, t, tl, duplicates, src, p);
      SrcSize(u, ul, t, tl, src, p);
      var q, full, least := Victim(key);
      src' := src;
      inserted := !full;
      if full && lru < least {
        DropFair(g, u, ul, t, tl, src, p, q);
        DropOrderly(g, u, ul, t, tl, src, p, q);
        return;
      }
      PlaceMoved(g, u, ul, t, tl, src, p, q);
      if full {
        ReplacedKeeps(g, u, ul, duplicates, q, key, val, lru);
        ReplaceFair(g, u, ul, t, tl, src, p, q);
        ReplaceOrderly(g, u, ul, t, tl, src, p, q);
      } else {
        FilledKeeps(g, u, ul, duplicates, q, key, val, lru);
        FillFair(g, u, ul, t, tl, src, p, q);
        FillOrderly(g, u, ul, t, tl, src, p, q);
      }
      src' := src[q := p];
      WriteEntry(q, key, val);
      WriteLru(q, lru);
    }

    /** Copies the entries of the old arrays, which hold `t` and `tl`, into empty ones. */
    method CopyAll(oldData: array<int>, oldKeys: array<Key>, oldVals: array<Val>, ghost h: Layout<Key>,
                   ghost t: Table<Key, Val>, ghost tl: seq<int>)
      returns (inserted: nat, ghost src: seq<int>)
      requires Sound() && |table.states| == |lrus| == |table.keys| == |table.vals|
      requires forall p :: 0 <= p < |table.states| ==> table.states[p] == EMPTY
      requires Bag(table) == multiset{} && Count(table.states, EMPTY) == |table.states|
      requires CacheInv(h, t, tl, duplicates) && GoodLayout(h) && h.n > 0 && h.K == conf.kernelSize == layout.K
               && oldKeys.Length == h.K * h.n > 0
      requires h == ML.Make(hashing, Linear(0), h.K, h.n, oldKeys.Length)
               && |t.states| == |tl| == |t.keys| == |t.vals| == oldKeys.Length == oldVals.Length
      requires Interleaved(h, oldData[..], t.states, tl) && t.keys == oldKeys[..] && t.vals == oldVals[..]
      requires {oldData as object, oldKeys as object, oldVals as object}
               !! {data as object, keys as object, vals as object}
      modifies this`table, this`lrus, data, keys, vals
      ensures Sound() && |table.states| == |lrus| == |table.keys| == |table.vals| == |old(table).states|
      ensures Moved(table, lrus, t, tl, src, |t.states|) && Fair(layout, table, lrus, t, tl, src, |t.states|)
      ensures Orderly(layout, table, lrus, t, tl, src, |t.states|)
      ensures Count(table.states, EMPTY) == |table.states| - inserted
      ensures Refines(layout, h) ==> Bag(table) == Bag(t)
    {
      hide Sound, GoodLayout, GoodBuckets, Interleaved, CacheInv, ML.Make, GoodMatcher, Bag, Prefix, Count, Moved, Fair,
        Orderly, Refines;
      ghost var g := layout;
      src := StartMoved(g, table, lrus, t, tl);
      Facts();
      StartOrderly(g, table, lrus, t, tl, src);
      NoneBelow(t);
      inserted := 0;
      for p := 0 to oldKeys.Length
        invariant Sound() && |table.states| == |lrus| == |table.keys| == |table.vals| == |old(table).states|
        invariant Moved(table, lrus, t, tl, src, p) && Fair(g, table, lrus, t, tl, src, p)
        invariant Orderly(g, table, lrus, t, tl, src, p)
        invariant Count(table.states, EMPTY) == |table.states| - inserted
        invariant Refines(g, h) ==> Bag(table) == Prefix(t, p)
      {
        ML.BucketStart(hashing, Linear(0), h.K, h.n, oldKeys.Length, h, p);
        StateAt(h, oldData[..], t.states, tl, p);
        PrefixStep(t, p);
        var at := p + (p - p % conf.kernelSize);
        if IsHash(oldData[at]) {
          var one;
          one, src := Rehome(p, oldKeys[p], oldVals[p], oldData[at + conf.kernelSize], h, t, tl, src);
          if one { inserted := inserted + 1; }
        } else {
          SkipSlot(g, table, lrus, t, tl, src, p);
          SkipOrderly(g, table, lrus, t, tl, src, p);
        }
      }
      PrefixAll(t);
    }

    /** Changes the capacity; `src` says where each entry came from. */
    method Resize(want: nat) returns (end: nat, ghost src: seq<int>)
      requires Valid() && IsPow2(want)
      modifies this
      ensures Valid() && |table.states| == |table.keys| == |table.vals| == keys.Length == end
              == Max(want, conf.minCapacity)
      ensures |old(table).states| == |old(table).keys| == |old(table).vals| == |old(lrus)| == old(keys.Length)
      ensures end == old(keys.Length) ==>
                Repr() == old(Repr()) && table == old(table) && lrus == old(lrus) && layout == old(layout)
      ensures end != old(keys.Length) ==>
                fresh(data) && fresh(keys) && fresh(vals)
                && Moved(table, lrus, old(table), old(lrus), src, old(keys.Length))
                && Fair(layout, table, lrus, old(table), old(lrus), src, old(keys.Length))
                && Orderly(layout, table, lrus, old(table), old(lrus), src, old(keys.Length))
      ensures end >= old(keys.Length) ==> Contents() == old(Contents())
    {
      hide Configured, GoodLayout, GoodBuckets, Interleaved, CacheInv, ML.Make, Bag, Count, Moved, Fair, Orderly,
        Refines;
      Facts();
      ghost var h, t, tl := layout, table, lrus;
      src := [];
      end := Max(want, conf.minCapacity);
      var oldEnd := keys.Length;
      if end == oldEnd { return; }
      var oldData, oldKeys, oldVals := data, keys, vals;
      Alloc(end);
      Reset();
      Facts();
      if end > oldEnd { GrowthRefines(h, oldEnd); }
      var inserted;
      inserted, src := CopyAll(oldData, oldKeys, oldVals, h, t, tl);
      numEmpty := numEmpty - inserted;
    }

    lemma GrowthRefines(h: Layout<Key>, oldEnd: nat)
      requires Shaped() && conf.kernelSize == h.K > 0 && oldEnd == h.K * h.n > 0 && h.n > 0 && IsPow2(oldEnd)
               && oldEnd < keys.Length
      requires h == ML.Make(hashing, Linear(0), h.K, h.n, oldEnd)
      ensures Refines(layout, h)
    {
      hide GoodLayout, GoodBuckets, Interleaved, ML.Make, GoodMatcher, Refines;
      var m := PowDivides(oldEnd, keys.Length);
      ShapedFacts();
      BucketCount(h.K, h.n, m, keys.Length);
      GrowingRefines(hashing, h.K, h.n, m);
    }

    method Clear()
      requires Valid()
      modifies this`table, this`lrus, this`numEmpty, data
      ensures Valid() && |table.states| == |table.keys| == |table.vals| && Contents() == multiset{}
              && numEmpty == keys.Length
      ensures forall p :: 0 <= p < |table.states| ==> table.states[p] == EMPTY
    {
      hide Sound, Bag, Count;
      SoundIsShaped();
      Reset();
    }

    lemma SoundIsShaped()
      requires Sound()
      ensures Shaped()
    {
    }
  }
}
