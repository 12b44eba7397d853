/** Whole runs of a map without duplicates: whatever the sequence of operations, the answers
    and the final contents are those of a finite map. */
module Runs {
  import opened Slots
  import opened Probing
  import opened Sifting
  import opened Rebuild
  import opened Listing
  import opened Dictionary
  import opened HashMap

  datatype Op<!Key, !Val> =
    | Put(key: Key, val: Val)
    | Find(key: Key)
    | List(key: Key)
    | Erase(key: Key)
    | EraseAll(key: Key)
    | EraseIf(drop: (Key, Val) -> bool)
    | Clear
    | Reserve(want: nat)
    | Resize(want: nat)
    | Grow
    | Scrub

  datatype Reply<+Val> = Done | Value(value: Option<Val>) | Values(values: seq<Val>) | Erased(number: int)

  ghost function After<Key(!new), Val>(m: map<Key, Val>, op: Op<Key, Val>): map<Key, Val> {
    match op
    case Put(k, v) => m[k := v]
    case Erase(k) => m - {k}
    case EraseAll(k) => m - {k}
    case EraseIf(drop) => Without(m, drop)
    case Clear => map[]
    case _ => m
  }

  ghost function Answer<Key(!new), Val>(m: map<Key, Val>, op: Op<Key, Val>): Reply<Val> {
    match op
    case Find(k) => Value(if k in m then Some(m[k]) else None)
    case List(k) => Values(if k in m then [m[k]] else [])
    case Erase(k) => Erased(if k in m then 1 else 0)
    case EraseAll(k) => Erased(if k in m then 1 else 0)
    case EraseIf(drop) => Erased(|m| - |Without(m, drop)|)
    case _ => Done
  }

  ghost function AfterAll<Key(!new), Val>(m: map<Key, Val>, ops: seq<Op<Key, Val>>): map<Key, Val> {
    if ops == [] then m else After(AfterAll(m, ops[..|ops| - 1]), ops[|ops| - 1])
  }

  ghost function Answers<Key(!new), Val>(m: map<Key, Val>, ops: seq<Op<Key, Val>>): seq<Reply<Val>> {
    if ops == [] then []
    else Answers(m, ops[..|ops| - 1]) + [Answer(AfterAll(m, ops[..|ops| - 1]), ops[|ops| - 1])]
  }

  lemma OneMore<Key(!new), Val>(m: map<Key, Val>, ops: seq<Op<Key, Val>>, i: nat)
    requires i < |ops|
    ensures AfterAll(m, ops[..i + 1]) == After(AfterAll(m, ops[..i]), ops[i])
    ensures Answers(m, ops[..i + 1]) == Answers(m, ops[..i]) + [Answer(AfterAll(m, ops[..i]), ops[i])]
  {
    assert ops[..i + 1][..i] == ops[..i];
  }

  // ---------------------------------------------------------------- one operation

  method DoPut<Key(==, 0, !new), Val(==, 0, !new)>(t: Map<Key, Val>, key: Key, val: Val, ghost m: map<Key, Val>)
    requires t.Valid() && !t.flags.duplicates && |t.table.states| == |t.table.keys| == |t.table.vals|
             && Represents(m, t.Contents())
    modifies t, t.states, t.keys, t.vals
    ensures t.Valid() && fresh(t.Repr() - old(t.Repr()))
    ensures |t.table.states| == |t.table.keys| == |t.table.vals| && Represents(m[key := val], t.Contents())
  {
    hide Represents, Bag, Holds, t.Valid, t.Repr;
    HoldsIsIn(t.table, m, key);
    ghost var b := t.Contents();
    var _, was := t.Put(key, val);
    if was.Some? {
      EntryOf(m, b, key, was.value);
      RemoveEntry(m, b, key);
      AddEntry(m - {key}, b - multiset{Some((key, was.value))}, key, val);
      assert (m - {key})[key := val] == m[key := val];
    } else {
      assert b - multiset{} == b;
      AddEntry(m, b, key, val);
    }
  }

  method DoFind<Key(==, 0, !new), Val(==, 0, !new)>(t: Map<Key, Val>, key: Key, ghost m: map<Key, Val>)
                                                    returns (r: Option<Val>)
    requires t.Valid() && |t.table.states| == |t.table.keys| == |t.table.vals| && Represents(m, t.Contents())
    ensures r == if key in m then Some(m[key]) else None
  {
    hide Represents, Bag, Holds, t.Valid, IsFirst;
    HoldsIsIn(t.table, m, key);
    var pos, _, _ := t.FindFirst(key);
    if pos == -1 { return None; }
    FirstIsHeld(t.layout, t.table, key, pos);
    LiveIsEntry(t.table, m, pos);
    ghost var _ := t.Facts();
    r := Some(t.vals[pos]);
  }

  // ---------------------------------------------------------------- listing

  /** `vals` are the values of the entries of `key`, each as often as there is one. */
  ghost predicate AreValues<Key(!new), Val(!new)>(b: multiset<Option<(Key, Val)>>, key: Key, vals: seq<Val>) {
    forall v: Val {:trigger multiset(vals)[v]} {:trigger Some((key, v))} :: multiset(vals)[v] == b[Some((key, v))]
  }

  ghost function ValuesAt<Key, Val>(t: Table<Key, Val>, found: seq<int>): seq<Val>
    requires |t.vals| == |t.states| && forall i :: 0 <= i < |found| ==> Live(t, found[i])
  {
    seq(|found|, i requires 0 <= i < |found| => assert Live(t, found[i]); t.vals[found[i]])
  }

  ghost predicate Lists<Key(!new), Val>(t: Table<Key, Val>, key: Key, found: seq<int>) {
    && |t.states| == |t.keys| == |t.vals|
    && (forall i, j :: 0 <= i < j < |found| ==> found[i] != found[j])
    && (forall p :: p in found <==> Live(t, p) && t.keys[p] == key)
  }

  lemma TakeOut<Key(!new), Val(!new)>(t: Table<Key, Val>, key: Key, found: seq<int>)
    requires Lists(t, key, found) && |found| > 0
    ensures Live(t, found[0]) && t.keys[found[0]] == key
    ensures Lists(SetState(t, found[0], EMPTY), key, found[1..])
    ensures Bag(SetState(t, found[0], EMPTY)) == Bag(t) - multiset{Some((key, t.vals[found[0]]))}
    ensures Some((key, t.vals[found[0]])) in Bag(t)
  {
    hide Bag;
    var p, rest := found[0], found[1..];
    assert p in found && found == [p] + rest;
    var u := SetState(t, p, EMPTY);
    assert forall i :: 0 <= i < |rest| ==> rest[i] == found[i + 1];
    assert p !in rest;
    forall q ensures q in rest <==> Live(u, q) && u.keys[q] == key {
      assert q in found <==> q == p || q in rest;
      assert Live(u, q) <==> Live(t, q) && q != p;
    }
    BagUpdate(t, u, p);
  }

  lemma ListsLive<Key(!new), Val(!new)>(t: Table<Key, Val>, key: Key, found: seq<int>)
    requires Lists(t, key, found)
    ensures |t.states| == |t.keys| == |t.vals| && forall i :: 0 <= i < |found| ==> Live(t, found[i])
  {
  }

  lemma NoValues<Key(!new), Val(!new)>(t: Table<Key, Val>, key: Key)
    requires Lists(t, key, [])
    ensures AreValues(Bag(t), key, [])
  {
    hide Bag;
    forall v: Val ensures Bag(t)[Some((key, v))] == 0 {
      if Some((key, v)) in Bag(t) { HoldsInBag(t, key); }
    }
  }

  /** Taking the listed entries out one by one leaves none of the key. */
  lemma {:induction false} ListedValues<Key(!new), Val(!new)>(t: Table<Key, Val>, key: Key, found: seq<int>)
    requires Lists(t, key, found)
    ensures forall i :: 0 <= i < |found| ==> Live(t, found[i])
    ensures AreValues(Bag(t), key, ValuesAt(t, found))
    decreases |found|
  {
    hide Bag, Lists;
    ListsLive(t, key, found);
    if found == [] {
      NoValues(t, key);
    } else {
      var u, rest := SetState(t, found[0], EMPTY), found[1..];
      TakeOut(t, key, found);
      ListedValues(u, key, rest);
      assert ValuesAt(t, found) == [t.vals[found[0]]] + ValuesAt(u, rest);
    }
  }

  lemma AllTheSame<Val>(vals: seq<Val>, v: Val)
    requires forall i :: 0 <= i < |vals| ==> vals[i] == v
    ensures |vals| >= 2 ==> multiset(vals)[v] >= 2
    ensures |vals| == 1 ==> vals == [v]
  {
    if |vals| >= 2 { assert vals == [v, v] + vals[2..]; }
  }

  lemma OneValue<Key(!new), Val(!new)>(m: map<Key, Val>, b: multiset<Option<(Key, Val)>>, key: Key, vals: seq<Val>)
    requires Represents(m, b) && AreValues(b, key, vals)
    ensures vals == if key in m then [m[key]] else []
  {
    forall i | 0 <= i < |vals| ensures b[Some((key, vals[i]))] > 0 {
      assert vals[i] in multiset(vals);
    }
    assert |vals| > 0 ==> b[Some((key, vals[0]))] > 0;
    if key in m {
      var v := m[key];
      assert b[Some((key, v))] == 1;
      assert multiset(vals)[v] == 1;
      assert v in multiset(vals);
      assert v in vals;
      AllTheSame(vals, v);
    }
  }

  /** The values in the slots of `found`. */
  method ReadValues<Key(==, 0, !new), Val(==, 0, !new)>(t: Map<Key, Val>, found: seq<int>) returns (vals: seq<Val>)
    requires t.Valid() && |t.table.vals| == |t.table.states| && forall i :: 0 <= i < |found| ==> Live(t.table, found[i])
    ensures vals == ValuesAt(t.table, found)
  {
    hide t.Valid, Bag;
    t.Core();
    vals := [];
    for i := 0 to |found|
      invariant vals == ValuesAt(t.table, found)[..i]
    {
      vals := vals + [t.vals[found[i]]];
    }
  }

  method DoList<Key(==, 0, !new), Val(==, 0, !new)>(t: Map<Key, Val>, key: Key) returns (vals: seq<Val>)
    requires t.Valid()
    ensures |t.table.states| == |t.table.keys| == |t.table.vals| && AreValues(t.Contents(), key, vals)
  {
    hide Bag, t.Valid, AreValues, ValuesAt;
    var found := t.ForEachKey(key);
    t.Core();
    InOrderDistinct(t.layout, key, found);
    ListedValues(t.table, key, found);
    vals := ReadValues(t, found);
  }

  lemma InOrderDistinct<Key>(g: Layout<Key>, key: Key, found: seq<int>)
    requires InOrder(g, key, found)
    ensures forall i, j :: 0 <= i < j < |found| ==> found[i] != found[j]
  {
  }

  // ---------------------------------------------------------------- erasing

  method DoErase<Key(==, 0, !new), Val(==, 0, !new)>(t: Map<Key, Val>, key: Key, ghost m: map<Key, Val>)
                                                     returns (n: int)
    requires t.Valid() && t.ScrubSafe() && |t.table.states| == |t.table.keys| == |t.table.vals|
             && Represents(m, t.Contents())
    modifies t, t.states, t.keys, t.vals
    ensures t.Valid() && fresh(t.Repr() - old(t.Repr()))
    ensures |t.table.states| == |t.table.keys| == |t.table.vals| && Represents(m - {key}, t.Contents())
    ensures n == if key in m then 1 else 0
  {
    hide Represents, Bag, Holds, t.Valid, IsFirst;
    HoldsIsIn(t.table, m, key);
    ghost var b, vals := t.Contents(), t.table.vals;
    var erased, _, _, at := t.EraseFirst(key);
    if erased {
      EntryOf(m, b, key, vals[at]);
      RemoveEntry(m, b, key);
      n := 1;
    } else {
      assert b - multiset{} == b && m - {key} == m;
      n := 0;
    }
  }

  method DoEraseAll<Key(==, 0, !new), Val(==, 0, !new)>(t: Map<Key, Val>, key: Key, ghost m: map<Key, Val>)
                                                        returns (n: int)
    requires t.Valid() && t.ScrubSafe() && |t.table.states| == |t.table.keys| == |t.table.vals|
             && Represents(m, t.Contents())
    modifies t, t.states, t.keys, t.vals
    ensures t.Valid() && fresh(t.Repr() - old(t.Repr()))
    ensures |t.table.states| == |t.table.keys| == |t.table.vals| && Represents(m - {key}, t.Contents())
    ensures n == if key in m then 1 else 0
  {
    hide Bag, Holds, t.Valid, Dropped;
    ghost var b := t.Contents();
    n := t.EraseAll(key);
    BagHasNoNone(t.table);
    DropEntries(m, b, t.Contents(), IsKey(key));
    WithoutKey(m, key);
    KeyCount(m, key);
  }

  method DoEraseIf<Key(==, 0, !new), Val(==, 0, !new)>(t: Map<Key, Val>, drop: (Key, Val) -> bool,
                                                       ghost m: map<Key, Val>) returns (n: int)
    requires t.Valid() && t.ScrubSafe() && |t.table.states| == |t.table.keys| == |t.table.vals|
             && Represents(m, t.Contents())
    modifies t, t.states, t.keys, t.vals
    ensures t.Valid() && fresh(t.Repr() - old(t.Repr()))
    ensures |t.table.states| == |t.table.keys| == |t.table.vals| && Represents(Without(m, drop), t.Contents())
    ensures n == |m| - |Without(m, drop)|
  {
    hide Bag, Holds, t.Valid, Dropped;
    ghost var b := t.Contents();
    n := t.EraseIf(drop);
    BagHasNoNone(t.table);
    DropEntries(m, b, t.Contents(), drop);
  }

  lemma BagHasNoNone<Key, Val>(t: Table<Key, Val>)
    requires |t.states| == |t.keys| == |t.vals|
    ensures Bag(t)[None] == 0
  {
  }

  lemma KeyCount<Key, Val>(m: map<Key, Val>, key: Key)
    ensures |m| - |m - {key}| == if key in m then 1 else 0
  {
    MapSize(m);
    MapSize(m - {key});
    assert (m - {key}).Keys == m.Keys - {key};
  }

  method DoClear<Key(==, 0, !new), Val(==, 0, !new)>(t: Map<Key, Val>)
    requires t.Valid()
    modifies t, t.states
    ensures t.Valid() && fresh(t.Repr() - old(t.Repr()))
    ensures |t.table.states| == |t.table.keys| == |t.table.vals| && Represents(map[], t.Contents())
  {
    hide Represents, Bag, t.Valid;
    var _ := t.Clear();
    ghost var _ := t.Facts();
    EmptyMap<Key, Val>();
  }

  /** The operations that only rearrange the table. */
  method Reshape<Key(==, 0, !new), Val(==, 0, !new)>(t: Map<Key, Val>, op: Op<Key, Val>)
    requires t.Valid() && (op.Reserve? || op.Resize? || op.Grow? || (op.Scrub? && t.conf.kernelSize >= 2))
    modifies t, t.states, t.keys, t.vals
    ensures t.Valid() && fresh(t.Repr() - old(t.Repr()))
    ensures |t.table.states| == |t.table.keys| == |t.table.vals|
            && |old(t.table).states| == |old(t.table).keys| == |old(t.table).vals|
    ensures t.Contents() == old(t.Contents())
  {
    hide Bag, t.Valid;
    ghost var _ := t.Facts();
    match op {
      case Reserve(want) => var _ := t.Reserve(want);
      case Resize(want) => var _ := t.ResizeTo(want);
      case Grow => var _ := t.Grow();
      case Scrub => var _ := t.Scrub();
    }
  }

  method DoAnyErase<Key(==, 0, !new), Val(==, 0, !new)>(t: Map<Key, Val>, op: Op<Key, Val>, ghost m: map<Key, Val>)
                                                        returns (n: int)
    requires t.Valid() && !t.flags.duplicates && t.ScrubSafe() && (op.Erase? || op.EraseAll? || op.EraseIf?)
    requires |t.table.states| == |t.table.keys| == |t.table.vals| && Represents(m, t.Contents())
    modifies t, t.states, t.keys, t.vals
    ensures t.Valid() && fresh(t.Repr() - old(t.Repr()))
    ensures |t.table.states| == |t.table.keys| == |t.table.vals| && Represents(After(m, op), t.Contents())
    ensures Erased(n) == Answer(m, op)
  {
    hide Represents, Bag, Holds, t.Valid, t.Repr, Without;
    match op {
      case Erase(k) => n := DoErase(t, k, m);
      case EraseAll(k) => n := DoEraseAll(t, k, m);
      case EraseIf(drop) => n := DoEraseIf(t, drop, m);
    }
  }

  /** One operation does to the table what it does to the map it stands for. */
  method Perform<Key(==, 0, !new), Val(==, 0, !new)>(t: Map<Key, Val>, op: Op<Key, Val>, ghost m: map<Key, Val>)
                                                     returns (r: Reply<Val>)
    requires t.Valid() && !t.flags.duplicates && t.ScrubSafe() && (op.Scrub? ==> t.conf.kernelSize >= 2)
    requires |t.table.states| == |t.table.keys| == |t.table.vals| && Represents(m, t.Contents())
    modifies t, t.states, t.keys, t.vals
    ensures t.Valid() && fresh(t.Repr() - old(t.Repr()))
    ensures |t.table.states| == |t.table.keys| == |t.table.vals| && Represents(After(m, op), t.Contents())
    ensures r == Answer(m, op)
  {
    hide Represents, Bag, Holds, t.Valid, t.Repr, Without;
    r := Done;
    if op.Put? {
      DoPut(t, op.key, op.val, m);
    } else if op.Find? {
      var v := DoFind(t, op.key, m);
      r := Value(v);
    } else if op.List? {
      ghost var _ := t.Facts();
      var vs := DoList(t, op.key);
      OneValue(m, t.Contents(), op.key, vs);
      r := Values(vs);
    } else if op.Clear? {
      DoClear(t);
    } else if op.Erase? || op.EraseAll? || op.EraseIf? {
      var n := DoAnyErase(t, op, m);
      r := Erased(n);
    } else {
      Reshape(t, op);
    }
  }

  /** Any sequence of operations answers, and leaves, what a finite map would. */
  method Run<Key(==, 0, !new), Val(==, 0, !new)>(t: Map<Key, Val>, ops: seq<Op<Key, Val>>)
                                                 returns (replies: seq<Reply<Val>>)
    requires t.Valid() && !t.flags.duplicates && t.ScrubSafe()
    requires forall i :: 0 <= i < |ops| && ops[i].Scrub? ==> t.conf.kernelSize >= 2
    modifies t, t.states, t.keys, t.vals
    ensures t.Valid() && fresh(t.Repr() - old(t.Repr()))
    ensures |t.table.states| == |t.table.keys| == |t.table.vals|
            && |old(t.table).states| == |old(t.table).keys| == |old(t.table).vals|
    ensures AsMap(t.table) == AfterAll(AsMap(old(t.table)), ops)
    ensures replies == Answers(AsMap(old(t.table)), ops)
  {
    hide Represents, Bag, t.Valid, After, Answer, AsMap;
    ghost var _ := t.Facts();
    ghost var m0 := AsMap(t.table);
    TableIsMap(t.layout, t.table);
    replies := [];
    for i := 0 to |ops|
      invariant t.Valid() && fresh(t.Repr() - old(t.Repr()))
      invariant |t.table.states| == |t.table.keys| == |t.table.vals| && Represents(AfterAll(m0, ops[..i]), t.Contents())
      invariant replies == Answers(m0, ops[..i])
    {
      OneMore(m0, ops, i);
      var r := Perform(t, ops[i], AfterAll(m0, ops[..i]));
      replies := replies + [r];
    }
    assert ops[..|ops|] == ops;
    ghost var _ := t.Facts();
    TableIsMap(t.layout, t.table);
    SameMap(AsMap(t.table), AfterAll(m0, ops), t.Contents());
  }
}
