/** What a cache without duplicates is to its user: a finite map that counts uses and may forget.

    `Step` says what each operation does to it.  In every run of it what is held is the latest
    there is, and a key that was put is missing only because of an operation that may drop
    entries. */
module ForgetfulMap {
  import opened Slots
  import opened Kernels
  import opened CacheTable
  import opened LruCache
  import R = Runs

  datatype Op<!Key, !Val> =
    | Put(key: Key, val: Val)
    | Find(key: Key)
    | Erase(key: Key)
    | EraseIf(drop: (Key, Val) -> bool)
    | Scrub(threshold: int)
    | Resize(want: nat)
    | Clear

  datatype Reply<+Val> =
    | Done
    | Stored(how: CacheOp)
    | Value(value: Option<Val>)
    | Erased(number: int)
    | Resized(before: int, after: int)

  /** A value, and the counter of its uses. */
  datatype Slot<+Val> = Slot(val: Val, uses: int)

  // ---------------------------------------------------------------- one operation

  ghost predicate Part<Key(!new), Val>(h: map<Key, Val>, m: map<Key, Val>) {
    forall k :: k in h ==> k in m && h[k] == m[k]
  }

  /** A bucketful of entries has been used at least `uses` times. */
  ghost predicate Crowded<Key(!new), Val>(K: nat, h: map<Key, Slot<Val>>, uses: int) {
    exists full: set<Key> :: |full| == K && forall k :: k in full ==> k in h && h[k].uses >= uses
  }

  /** One more use of `key`; if its counter is at the limit, those of `bucket` are halved first. */
  ghost predicate Counts<Key(!new), Val>(h: map<Key, Slot<Val>>, key: Key, c: map<Key, Slot<Val>>, bucket: set<Key>) {
    && c.Keys == h.Keys && key in h && key in bucket
    && (forall k :: k in h ==>
          && c[k].val == h[k].val
          && c[k].uses == h[k].uses / (if k in bucket && h[key].uses >= MAX_LRU then 2 else 1) + if k == key then 1
          else 0)
  }

  ghost predicate UsedOnce<Key(!new), Val>(K: nat, h: map<Key, Slot<Val>>, key: Key, c: map<Key, Slot<Val>>) {
    exists bucket: set<Key> :: |bucket| <= K && Counts(h, key, c, bucket)
  }

  /** The entry of another key that is given up for a new one: a bucketful has been used as much. */
  ghost predicate Evicts<Key(!new), Val>(K: nat, h: map<Key, Slot<Val>>, key: Key, val: Val, c: map<Key, Slot<Val>>) {
    exists victim :: victim in h && Crowded(K, h, h[victim].uses) && c == (h - {victim})[key := Slot(val, DEFAULT_LRU)]
  }

  /** One use of `key`, which is then given another value. */
  ghost predicate Overwrites<Key(!new), Val>(K: nat, h: map<Key, Slot<Val>>, key: Key, val: Val, c: map<Key,
                                             Slot<Val>>) {
    key in h && key in c && c[key].val == val && UsedOnce(K, h, key, c[key := Slot(h[key].val, c[key].uses)])
  }

  ghost function Above<Key(!new), Val>(h: map<Key, Slot<Val>>, threshold: int): map<Key, Slot<Val>> {
    map k | k in h && h[k].uses >= threshold :: h[k]
  }

  ghost function Unselected<Key(!new), Val>(h: map<Key, Slot<Val>>, drop: (Key, Val) -> bool): map<Key, Slot<Val>> {
    map k | k in h && !drop(k, h[k].val) :: h[k]
  }

  /** One operation on what a cache with buckets of `K` slots holds. */
  ghost predicate Step<Key(!new), Val(!new)>(K: nat, h: map<Key, Slot<Val>>, op: Op<Key, Val>, r: Reply<Val>,
                                             c: map<Key, Slot<Val>>) {
    match op
    case Put(k, v) =>
      && r.Stored? && (r.how.Found? <==> k in h)
      && (match r.how
          case Found => Overwrites(K, h, k, v, c)
          case Inserted => c == h[k := Slot(v, DEFAULT_LRU)]
          case Replaced => Evicts(K, h, k, v, c))
    case Find(k) =>
      && r == Value(if k in h then Some(h[k].val) else None)
      && if k in h then UsedOnce(K, h, k, c) else c == h
    case Erase(k) => c == h - {k} && r == Erased(if k in h then 1 else 0)
    case EraseIf(drop) => c == Unselected(h, drop) && r == Erased(|h| - |c|)
    case Scrub(threshold) => c == (if threshold < MAX_LRU then Above(h, threshold) else h) && r == Erased(|h| - |c|)
    case Resize(_) =>
      && r.Resized? && Part(c, h) && (r.after >= r.before ==> c == h)
      && (forall k :: k in h && k !in c ==> Crowded(K, c, h[k].uses))
    case Clear => r == Done && c == map[]
  }

  /** The operations that may drop an entry nobody asked them to drop. */
  predicate Forgets<Key, Val>(op: Op<Key, Val>, r: Reply<Val>) {
    match op
    case Put(_, _) => r.Stored? && r.how.Replaced?
    case Scrub(threshold) => threshold < MAX_LRU
    case Resize(_) => r.Resized? && r.after < r.before
    case _ => false
  }

  // ---------------------------------------------------------------- the map that remembers everything

  /** The operation on a map that keeps everything until it is erased. */
  function Plain<Key, Val>(op: Op<Key, Val>): R.Op<Key, Val> {
    match op
    case Put(k, v) => R.Put(k, v)
    case Find(k) => R.Find(k)
    case Erase(k) => R.Erase(k)
    case EraseIf(drop) => R.EraseIf(drop)
    case Scrub(_) => R.Scrub
    case Resize(want) => R.Resize(want)
    case Clear => R.Clear
  }

  ghost function After<Key(!new), Val>(m: map<Key, Val>, op: Op<Key, Val>): map<Key, Val> { R.After(m, Plain(op)) }

  function Plains<Key, Val>(ops: seq<Op<Key, Val>>): seq<R.Op<Key, Val>> {
    seq(|ops|, i requires 0 <= i < |ops| => Plain(ops[i]))
  }

  ghost function AfterAll<Key(!new), Val>(m: map<Key, Val>, ops: seq<Op<Key, Val>>): map<Key, Val> {
    R.AfterAll(m, Plains(ops))
  }

  lemma PlainPrefix<Key, Val>(ops: seq<Op<Key, Val>>, i: nat)
    requires i <= |ops|
    ensures Plains(ops[..i]) == Plains(ops)[..i]
  {
  }

  lemma OneMore<Key(!new), Val>(m: map<Key, Val>, ops: seq<Op<Key, Val>>, i: nat)
    requires i < |ops|
    ensures AfterAll(m, ops[..i + 1]) == After(AfterAll(m, ops[..i]), ops[i])
  {
    hide R.AfterAll, R.After, R.Answers, R.Answer, Plain;
    PlainPrefix(ops, i);
    PlainPrefix(ops, i + 1);
    R.OneMore(m, Plains(ops), i);
  }

  ghost function Values<Key(!new), Val>(h: map<Key, Slot<Val>>): map<Key, Val> { map k | k in h :: h[k].val }

  /** Every value of `h` is the one in `m`. */
  ghost predicate Latest<Key(!new), Val>(h: map<Key, Slot<Val>>, m: map<Key, Val>) {
    forall k :: k in h ==> k in m && h[k].val == m[k]
  }

  // ---------------------------------------------------------------- runs

  /** `held` are the states of a run, one more than there are operations. */
  ghost predicate IsRun<Key(!new), Val(!new)>(K: nat, held: seq<map<Key, Slot<Val>>>, ops: seq<Op<Key, Val>>,
                                              replies: seq<Reply<Val>>) {
    && |held| == |ops| + 1 && |replies| == |ops|
    && (forall i :: 0 <= i < |ops| ==> Step(K, held[i], ops[i], replies[i], held[i + 1]))
  }

  lemma StepIsLatest<Key(!new), Val(!new)>(K: nat, h: map<Key, Slot<Val>>, m: map<Key, Val>, op: Op<Key, Val>,
                                           r: Reply<Val>, c: map<Key, Slot<Val>>)
    requires Latest(h, m) && Step(K, h, op, r, c)
    ensures Latest(c, After(m, op))
  {
    hide Crowded, UsedOnce, Counts;
    if op.Put? {
      PutIsLatest(K, h, m, op.key, op.val, r, c);
    } else if op.Find? && op.key in h {
      UsedKeeps(K, h, op.key, c);
    }
  }

  lemma UsedKeeps<Key(!new), Val>(K: nat, h: map<Key, Slot<Val>>, key: Key, c: map<Key, Slot<Val>>)
    requires UsedOnce(K, h, key, c)
    ensures key in h && c.Keys == h.Keys && forall k :: k in h ==> c[k].val == h[k].val
  {
  }

  lemma PutIsLatest<Key(!new), Val(!new)>(K: nat, h: map<Key, Slot<Val>>, m: map<Key, Val>, key: Key, val: Val,
                                          r: Reply<Val>, c: map<Key, Slot<Val>>)
    requires Latest(h, m) && Step(K, h, Put(key, val), r, c)
    ensures Latest(c, m[key := val])
  {
    hide Crowded, UsedOnce, Counts;
    if r.how.Found? {
      var d := c[key := Slot(h[key].val, c[key].uses)];
      UsedKeeps(K, h, key, d);
      forall k | k in c && k != key ensures k in h && c[k].val == h[k].val { assert k in d; }
    }
  }

  /** What the cache holds is the latest there is. */
  lemma {:induction false} NeverStale<Key(!new), Val(!new)>(K: nat, held: seq<map<Key, Slot<Val>>>,
                                                            ops: seq<Op<Key, Val>>, replies: seq<Reply<Val>>, i: nat)
    requires IsRun(K, held, ops, replies) && i <= |ops|
    ensures Latest(held[i], AfterAll(Values(held[0]), ops[..i]))
  {
    hide Step, After, AfterAll;
    var m0 := Values(held[0]);
    if i == 0 {
      NothingDone(m0, ops);
    } else {
      hide Values, Latest;
      NeverStale(K, held, ops, replies, i - 1);
      OneMore(m0, ops, i - 1);
      StepIsLatest(K, held[i - 1], AfterAll(m0, ops[..i - 1]), ops[i - 1], replies[i - 1], held[i]);
    }
  }

  lemma NothingDone<Key(!new), Val>(m: map<Key, Val>, ops: seq<Op<Key, Val>>)
    ensures AfterAll(m, ops[..0]) == m
  {
  }

  lemma StepForgets<Key(!new), Val(!new)>(K: nat, h: map<Key, Slot<Val>>, m: map<Key, Val>, op: Op<Key, Val>,
                                          r: Reply<Val>, c: map<Key, Slot<Val>>, k: Key)
    requires Step(K, h, op, r, c) && Latest(h, m) && k in After(m, op) && k !in c
    ensures !(op.Put? && op.key == k) && k in m && (k in h ==> Forgets(op, r))
  {
    hide Crowded, UsedOnce, Counts, Latest;
    if op.Put? {
      PutForgets(K, h, op.key, op.val, r, c, k);
    } else if op.Find? && op.key in h {
      UsedKeeps(K, h, op.key, c);
    } else if op.EraseIf? {
      UnselectedKeeps(h, m, op.drop, k);
    }
  }

  lemma PutForgets<Key(!new), Val(!new)>(K: nat, h: map<Key, Slot<Val>>, key: Key, val: Val, r: Reply<Val>,
                                         c: map<Key, Slot<Val>>, k: Key)
    requires Step(K, h, Put(key, val), r, c) && k !in c
    ensures k != key && (k in h ==> r.how.Replaced?)
  {
    hide Crowded, UsedOnce, Counts;
    if r.how.Found? { UsedKeeps(K, h, key, c[key := Slot(h[key].val, c[key].uses)]); }
  }

  lemma UnselectedKeeps<Key(!new), Val>(h: map<Key, Slot<Val>>, m: map<Key, Val>, drop: (Key, Val) -> bool, k: Key)
    requires Latest(h, m) && k in m && !drop(k, m[k])
    ensures k in h ==> k in Unselected(h, drop)
  {
  }

  /** A key that was put and is not held was dropped by one of the operations that may do that,
      and has not been put again. */
  lemma {:induction false} WhyMissed<Key(!new), Val(!new)>(K: nat, held: seq<map<Key, Slot<Val>>>,
                                                           ops: seq<Op<Key, Val>>,
                                                           replies: seq<Reply<Val>>, i: nat, k: Key)
      returns (j: nat)
    requires IsRun(K, held, ops, replies) && i <= |ops| && k in AfterAll(Values(held[0]), ops[..i]) && k !in held[i]
    ensures j < i && Forgets(ops[j], replies[j]) && k in held[j] && k !in held[j + 1]
    ensures forall l :: j <= l < i ==> !(ops[l].Put? && ops[l].key == k)
  {
    hide Step, After, AfterAll, Forgets, Latest;
    var m0 := Values(held[0]);
    NothingDone(m0, ops);
    if i > 0 {
      NeverStale(K, held, ops, replies, i - 1);
      OneMore(m0, ops, i - 1);
      StepForgets(K, held[i - 1], AfterAll(m0, ops[..i - 1]), ops[i - 1], replies[i - 1], held[i], k);
      if k in held[i - 1] { j := i - 1; } else { j := WhyMissed(K, held, ops, replies, i - 1, k); }
    }
  }

  /** Without such an operation the cache is the map that remembers everything. */
  lemma NothingForgotten<Key(!new), Val(!new)>(K: nat, held: seq<map<Key, Slot<Val>>>, ops: seq<Op<Key, Val>>,
                                               replies: seq<Reply<Val>>, i: nat)
    requires IsRun(K, held, ops, replies) && i <= |ops| && forall j :: 0 <= j < i ==> !Forgets(ops[j], replies[j])
    ensures Values(held[i]) == AfterAll(Values(held[0]), ops[..i])
  {
    hide IsRun, Forgets, AfterAll;
    RunSizes(K, held, ops, replies);
    var m := AfterAll(Values(held[0]), ops[..i]);
    NeverStale(K, held, ops, replies, i);
    forall k | k in m ensures k in held[i] {
      if k !in held[i] { var j := WhyMissed(K, held, ops, replies, i, k); }
    }
  }

  lemma RunSizes<Key(!new), Val(!new)>(K: nat, held: seq<map<Key, Slot<Val>>>, ops: seq<Op<Key, Val>>,
                                       replies: seq<Reply<Val>>)
    requires IsRun(K, held, ops, replies)
    ensures |held| == |ops| + 1 && |replies| == |ops|
  {
  }

  /** A run answers every lookup with the latest value or, if the key was dropped since, not at all;
      and exactly as the map that remembers everything if no operation drops anything. */
  lemma Lookups<Key(!new), Val(!new)>(K: nat, held: seq<map<Key, Slot<Val>>>, ops: seq<Op<Key, Val>>,
                                      replies: seq<Reply<Val>>, i: nat)
    requires IsRun(K, held, ops, replies) && i < |ops| && ops[i].Find?
    ensures var m, k := AfterAll(Values(held[0]), ops[..i]), ops[i].key;
      && replies[i].Value?
      && (replies[i].value.Some? ==> k in m && m[k] == replies[i].value.value)
      && (replies[i].value.None? && k in m ==>
            exists j ::
              && 0 <= j < i && Forgets(ops[j], replies[j]) && k in held[j]
              && forall l :: j <= l < i ==> !(ops[l].Put? && ops[l].key == k))
      && ((forall j :: 0 <= j < i ==> !Forgets(ops[j], replies[j])) ==>
            replies[i].value == if k in m then Some(m[k]) else None)
  {
    hide Forgets, AfterAll, UsedOnce;
    var m, k := AfterAll(Values(held[0]), ops[..i]), ops[i].key;
    NeverStale(K, held, ops, replies, i);
    assert Step(K, held[i], ops[i], replies[i], held[i + 1]);
    if k in m && k !in held[i] { var j := WhyMissed(K, held, ops, replies, i, k); }
  }

  lemma RunOneMore<Key(!new), Val(!new)>(K: nat, held: seq<map<Key, Slot<Val>>>, ops: seq<Op<Key, Val>>,
                                         replies: seq<Reply<Val>>, op: Op<Key, Val>, r: Reply<Val>, h: map<Key,
                                           Slot<Val>>)
    requires IsRun(K, held, ops, replies) && Step(K, held[|ops|], op, r, h)
    ensures IsRun(K, held + [h], ops + [op], replies + [r])
  {
    hide Step;
  }

  lemma RunStart<Key(!new), Val(!new)>(K: nat, h: map<Key, Slot<Val>>)
    ensures IsRun<Key, Val>(K, [h], [], [])
  {
  }
}
