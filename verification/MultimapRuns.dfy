/** Whole runs of a map with duplicates: a multiset of entries.

    Which of several entries of a key a lookup sees, or an erase takes, depends on the layout, so
    `Step` leaves that open; it leaves nothing else open. */
module MultimapRuns {
  import opened Slots
  import opened Probing
  import opened Sifting
  import opened Rebuild
  import opened HashMap
  import opened Runs

  type Entries<!Key(==), !Val(==)> = multiset<Option<(Key, Val)>>

  ghost predicate HasKey<Key(!new), Val(!new)>(b: Entries<Key, Val>, key: Key) {
    exists v :: Some((key, v)) in b
  }

  /** `c` is `b` without some entry of `key`, if there is one. */
  ghost predicate TakesOne<Key(!new), Val(!new)>(b: Entries<Key, Val>, key: Key, n: int, c: Entries<Key, Val>) {
    if n == 1 then exists v :: Some((key, v)) in b && c == b - multiset{Some((key, v))}
    else n == 0 && !HasKey(b, key) && c == b
  }

  /** One operation on a multiset of entries, and what it may answer. */
  ghost predicate Step<Key(!new), Val(!new)>(b: Entries<Key, Val>, op: Op<Key, Val>, r: Reply<Val>,
                                             c: Entries<Key, Val>) {
    match op
    case Put(k, v) => r == Done && c == b + multiset{Some((k, v))}
    case Find(k) => c == b && r.Value? && if r.value.Some? then Some((k, r.value.value)) in b else !HasKey(b, k)
    case List(k) => c == b && r.Values? && AreValues(b, k, r.values)
    case Erase(k) => r.Erased? && TakesOne(b, k, r.number, c)
    case EraseAll(k) => r == Erased(|b| - |c|) && Dropped(b, c, IsKey(k))
    case EraseIf(drop) => r == Erased(|b| - |c|) && Dropped(b, c, drop)
    case Clear => r == Done && c == multiset{}
    case _ => r == Done && c == b
  }

  lemma HoldsHasKey<Key(!new), Val(!new)>(t: Table<Key, Val>, key: Key)
    requires |t.states| == |t.keys| == |t.vals|
    ensures Holds(t, key) <==> HasKey(Bag(t), key)
  {
    hide Bag;
    HoldsInBag(t, key);
  }

  // ---------------------------------------------------------------- one operation

  method DoFind<Key(==, 0, !new), Val(==, 0, !new)>(t: Map<Key, Val>, key: Key) returns (r: Option<Val>)
    requires t.Valid()
    ensures |t.table.states| == |t.table.keys| == |t.table.vals|
            && Step(t.Contents(), Find(key), Value(r), t.Contents())
  {
    hide Bag, Holds, t.Valid, IsFirst, HasKey;
    t.Core();
    HoldsHasKey(t.table, key);
    var pos, _, _ := t.FindFirst(key);
    if pos == -1 { return None; }
    FirstIsHeld(t.layout, t.table, key, pos);
    BagHas(t.table, pos);
    r := Some(t.vals[pos]);
  }

  method DoErase<Key(==, 0, !new), Val(==, 0, !new)>(t: Map<Key, Val>, key: Key) returns (n: int)
    requires t.Valid() && t.ScrubSafe()
    modifies t, t.states, t.keys, t.vals
    ensures t.Valid() && fresh(t.Repr() - old(t.Repr()))
    ensures |t.table.states| == |t.table.keys| == |t.table.vals|
            && |old(t.table).states| == |old(t.table).keys| == |old(t.table).vals|
    ensures TakesOne(old(t.Contents()), key, n, t.Contents())
  {
    hide Bag, Holds, t.Valid, IsFirst, HasKey;
    ghost var _ := t.Facts();
    HoldsHasKey(t.table, key);
    var erased, _, _, _ := t.EraseFirst(key);
    n := if erased then 1 else 0;
  }

  /** The operations that only rearrange the table. */
  method Rearrange<Key(==, 0, !new), Val(==, 0, !new)>(t: Map<Key, Val>, op: Op<Key, Val>)
    requires t.Valid() && (op.Reserve? || op.Resize? || op.Grow? || (op.Scrub? && t.conf.kernelSize >= 2))
    modifies t, t.states, t.keys, t.vals
    ensures t.Valid() && fresh(t.Repr() - old(t.Repr()))
    ensures |t.table.states| == |t.table.keys| == |t.table.vals|
            && |old(t.table).states| == |old(t.table).keys| == |old(t.table).vals|
    ensures Step(old(t.Contents()), op, Done, t.Contents())
  {
    hide Bag, t.Valid;
    Reshape(t, op);
  }

  method Perform<Key(==, 0, !new), Val(==, 0, !new)>(t: Map<Key, Val>, op: Op<Key, Val>) returns (r: Reply<Val>)
    requires t.Valid() && t.flags.duplicates && t.ScrubSafe() && (op.Scrub? ==> t.conf.kernelSize >= 2)
    modifies t, t.states, t.keys, t.vals
    ensures t.Valid() && fresh(t.Repr() - old(t.Repr()))
    ensures |t.table.states| == |t.table.keys| == |t.table.vals|
            && |old(t.table).states| == |old(t.table).keys| == |old(t.table).vals|
    ensures Step(old(t.Contents()), op, r, t.Contents())
  {
    hide Bag, Holds, t.Valid, t.Repr, Dropped, AreValues, TakesOne, HasKey;
    ghost var _ := t.Facts();
    r := Done;
    if op.Put? {
      ghost var b := t.Contents();
      var _, _ := t.Put(op.key, op.val);
      assert b - multiset{} == b;
    } else if op.Find? {
      var v := DoFind(t, op.key);
      r := Value(v);
    } else if op.List? {
      var vs := DoList(t, op.key);
      r := Values(vs);
    } else if op.Clear? {
      DoClear(t);
    } else if op.Erase? || op.EraseAll? || op.EraseIf? {
      r := DoAnyErase(t, op);
    } else {
      Rearrange(t, op);
    }
  }

  method DoClear<Key(==, 0, !new), Val(==, 0, !new)>(t: Map<Key, Val>)
    requires t.Valid()
    modifies t, t.states
    ensures t.Valid() && fresh(t.Repr() - old(t.Repr()))
    ensures |t.table.states| == |t.table.keys| == |t.table.vals| && t.Contents() == multiset{}
  {
    hide Bag, t.Valid;
    var _ := t.Clear();
    ghost var _ := t.Facts();
  }

  method DoAnyErase<Key(==, 0, !new), Val(==, 0, !new)>(t: Map<Key, Val>, op: Op<Key, Val>) returns (r: Reply<Val>)
    requires t.Valid() && t.ScrubSafe() && (op.Erase? || op.EraseAll? || op.EraseIf?)
    modifies t, t.states, t.keys, t.vals
    ensures t.Valid() && fresh(t.Repr() - old(t.Repr()))
    ensures |t.table.states| == |t.table.keys| == |t.table.vals|
            && |old(t.table).states| == |old(t.table).keys| == |old(t.table).vals|
    ensures Step(old(t.Contents()), op, r, t.Contents())
  {
    hide Bag, Holds, t.Valid, t.Repr, Dropped, TakesOne, HasKey;
    var n: int;
    match op {
      case Erase(k) => n := DoErase(t, k);
      case EraseAll(k) => n := t.EraseAll(k);
      case EraseIf(drop) => n := t.EraseIf(drop);
    }
    r := Erased(n);
  }

  // ---------------------------------------------------------------- runs

  /** A run of the multiset: `bags` are its states, one more than there are operations. */
  ghost predicate IsRun<Key(!new), Val(!new)>(bags: seq<Entries<Key, Val>>, ops: seq<Op<Key, Val>>,
                                              replies: seq<Reply<Val>>) {
    && |bags| == |ops| + 1 && |replies| == |ops|
    && (forall i :: 0 <= i < |ops| ==> Step(bags[i], ops[i], replies[i], bags[i + 1]))
  }

  lemma RunOneMore<Key(!new), Val(!new)>(bags: seq<Entries<Key, Val>>, ops: seq<Op<Key, Val>>, replies: seq<Reply<Val>>,
                                         op: Op<Key, Val>, r: Reply<Val>,
                                         b: Entries<Key, Val>)
    requires IsRun(bags, ops, replies) && Step(bags[|ops|], op, r, b)
    ensures IsRun(bags + [b], ops + [op], replies + [r])
  {
  }

  /** Any sequence of operations answers, and leaves, what a multiset of entries may. */
  method Run<Key(==, 0, !new), Val(==, 0, !new)>(t: Map<Key, Val>, ops: seq<Op<Key, Val>>)
                                                 returns (replies: seq<Reply<Val>>, ghost bags: seq<Entries<Key, Val>>)
    requires t.Valid() && t.flags.duplicates && t.ScrubSafe()
    requires forall i :: 0 <= i < |ops| && ops[i].Scrub? ==> t.conf.kernelSize >= 2
    modifies t, t.states, t.keys, t.vals
    ensures t.Valid() && fresh(t.Repr() - old(t.Repr()))
    ensures |t.table.states| == |t.table.keys| == |t.table.vals|
            && |old(t.table).states| == |old(t.table).keys| == |old(t.table).vals|
    ensures IsRun(bags, ops, replies) && bags[0] == old(t.Contents()) && bags[|ops|] == t.Contents()
  {
    hide Bag, t.Valid, IsRun, Step;
    ghost var _ := t.Facts();
    ghost var b0 := t.Contents();
    replies, bags := [], [b0];
    RunStart<Key, Val>(b0);
    for i := 0 to |ops|
      invariant t.Valid() && fresh(t.Repr() - old(t.Repr()))
      invariant |t.table.states| == |t.table.keys| == |t.table.vals|
      invariant |bags| == i + 1 && bags[0] == b0 && bags[i] == t.Contents() && IsRun(bags, ops[..i], replies)
    {
      var r := Perform(t, ops[i]);
      RunOneMore(bags, ops[..i], replies, ops[i], r, t.Contents());
      assert ops[..i + 1] == ops[..i] + [ops[i]];
      replies, bags := replies + [r], bags + [t.Contents()];
    }
    assert ops[..|ops|] == ops;
  }

  lemma RunStart<Key(!new), Val(!new)>(b: Entries<Key, Val>)
    ensures IsRun<Key, Val>([b], [], [])
  {
  }
}
