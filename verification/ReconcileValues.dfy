/** What the reconcile op set does to values: replayed on keys and values together it gives
    every target key its target value. */
module ReconcileValues {
  import opened Wrappers
  import opened Sequences
  import opened Reconciliation
  import opened ReconcileReplay

  /** A keyed collection: the key order, and what `value_of` gives for each of its keys. */
  datatype Held<K, V> = Held(order: seq<K>, values: map<K, Option<V>>)

  function HeldOf<K, V>(level: Level<K, V>): Held<K, V> {
    Held(level.order, map k | k in level.order :: level.ValueOf(k))
  }

  /** One op on keys and values; an update of an unknown key does nothing. */
  function Write<K(==), V>(h: Held<K, V>, op: ReconcileOp<K, V>): (r: Held<K, V>)
    requires Distinct(h.order)
    ensures Distinct(r.order)
  {
    Held(Apply(h.order, op),
         match op
         case RemoveOp(k) => h.values - {k}
         case InsertOp(k, v) => if k in h.order then h.values else h.values[k := v]
         case UpdateOp(k, v) => if k in h.order then h.values[k := v] else h.values
         case MoveOp(_, _) => h.values)
  }

  function WriteAll<K(==), V>(h: Held<K, V>, ops: seq<ReconcileOp<K, V>>): (r: Held<K, V>)
    requires Distinct(h.order)
    ensures Distinct(r.order)
    decreases |ops|
  {
    if ops == [] then h else WriteAll(Write(h, ops[0]), ops[1..])
  }

  /** The key list runs through the replay of keys alone. */
  lemma {:induction false} WriteOrder<K, V>(h: Held<K, V>, ops: seq<ReconcileOp<K, V>>)
    requires Distinct(h.order)
    ensures WriteAll(h, ops).order == Replay(h.order, ops)
    decreases |ops|
  {
    hide Apply;
    if ops != [] { WriteOrder(Write(h, ops[0]), ops[1..]); }
  }

  lemma {:induction false} WriteAppend<K, V>(h: Held<K, V>, a: seq<ReconcileOp<K, V>>, b: seq<ReconcileOp<K, V>>)
    requires Distinct(h.order)
    ensures WriteAll(h, a + b) == WriteAll(WriteAll(h, a), b)
    decreases |a|
  {
    hide Apply;
    if a == [] {
      assert a + b == b;
    } else {
      assert (a + b)[1..] == a[1..] + b;
      WriteAppend(Write(h, a[0]), a[1..], b);
    }
  }

  lemma {:induction false} WriteRemoves<K, V>(h: Held<K, V>, keys: seq<K>)
    requires Distinct(h.order)
    ensures WriteAll(h, Removes<K, V>(keys)).values == h.values - Elements(keys)
    decreases |keys|
  {
    if keys != [] {
      assert Removes<K, V>(keys)[1..] == Removes<K, V>(keys[1..]);
      WriteRemoves(Write(h, RemoveOp(keys[0])), keys[1..]);
      assert keys == [keys[0]] + keys[1..];
      assert Elements(keys) == {keys[0]} + Elements(keys[1..]);
    }
  }

  /** What `value_of` of the target gives for these keys. */
  function Given<K, V>(keys: seq<K>, target: Level<K, V>): map<K, Option<V>> {
    map k | k in keys :: target.ValueOf(k)
  }

  lemma {:induction false} GivenAfter<K, V>(values: map<K, Option<V>>, keys: seq<K>, target: Level<K, V>)
    requires keys != []
    ensures values[keys[0] := target.ValueOf(keys[0])] + Given(keys[1..], target) == values + Given(keys, target)
  {
    var a, b := values[keys[0] := target.ValueOf(keys[0])] + Given(keys[1..], target), values + Given(keys, target);
    assert keys == [keys[0]] + keys[1..];
    assert a.Keys == b.Keys;
    assert forall k :: k in a ==> a[k] == b[k];
  }

  lemma {:induction false} NothingWritten<K, V>(h: Held<K, V>, target: Level<K, V>)
    requires Distinct(h.order)
    ensures WriteAll(h, []) == h && h.values + Given([], target) == h.values
  {
  }

  lemma {:induction false} WriteInserts<K, V>(h: Held<K, V>, keys: seq<K>, target: Level<K, V>)
    requires Distinct(h.order) && Distinct(keys) && Elements(h.order) !! Elements(keys)
    ensures WriteAll(h, Inserts(keys, target)).values == h.values + Given(keys, target)
    decreases |keys|
  {
    if keys == [] {
      NothingWritten(h, target);
      assert Inserts(keys, target) == [];
    } else {
      hide *;
      InsertsStep(h, keys, target);
      WriteInserts(Held(h.order + [keys[0]], h.values[keys[0] := target.ValueOf(keys[0])]), keys[1..], target);
      GivenAfter(h.values, keys, target);
    }
  }

  lemma {:induction false} InsertsStep<K, V>(h: Held<K, V>, keys: seq<K>, target: Level<K, V>)
    requires Distinct(h.order) && Distinct(keys) && Elements(h.order) !! Elements(keys) && keys != []
    ensures var k := keys[0]; var next := Held(h.order + [k], h.values[k := target.ValueOf(k)]);
            && Distinct(next.order) && Distinct(keys[1..]) && Elements(next.order) !! Elements(keys[1..])
            && WriteAll(h, Inserts(keys, target)) == WriteAll(next, Inserts(keys[1..], target))
  {
    var k, op := keys[0], InsertOp(keys[0], target.ValueOf(keys[0]));
    assert k in Elements(keys) && k !in Elements(h.order);
    assert forall x :: x in keys[1..] ==> x in Elements(keys) && x != k;
    assert Inserts(keys, target)[0] == op && Inserts(keys, target)[1..] == Inserts(keys[1..], target);
    hide Inserts;
  }

  lemma {:induction false} InsertsOrder<K, V>(h: Held<K, V>, keys: seq<K>, target: Level<K, V>)
    requires Distinct(h.order) && Distinct(keys) && Elements(h.order) !! Elements(keys)
    ensures Elements(WriteAll(h, Inserts(keys, target)).order) == Elements(h.order) + Elements(keys)
  {
    WriteOrder(h, Inserts(keys, target));
    ReplayInserts(h.order, keys, target);
    hide Inserts, WriteAll, Replay;
  }

  lemma {:induction false} WriteUpdates<K, V>(h: Held<K, V>, keys: seq<K>, target: Level<K, V>)
    requires Distinct(h.order) && Elements(keys) <= Elements(h.order)
    ensures WriteAll(h, Updates(keys, target)).values == h.values + Given(keys, target)
    decreases |keys|
  {
    if keys == [] {
      NothingWritten(h, target);
      assert Updates(keys, target) == [];
    } else {
      hide *;
      UpdatesStep(h, keys, target);
      WriteUpdates(Held(h.order, h.values[keys[0] := target.ValueOf(keys[0])]), keys[1..], target);
      GivenAfter(h.values, keys, target);
    }
  }

  lemma {:induction false} UpdatesStep<K, V>(h: Held<K, V>, keys: seq<K>, target: Level<K, V>)
    requires Distinct(h.order) && Elements(keys) <= Elements(h.order) && keys != []
    ensures Elements(keys[1..]) <= Elements(h.order)
    ensures WriteAll(h, Updates(keys, target))
            == WriteAll(Held(h.order, h.values[keys[0] := target.ValueOf(keys[0])]), Updates(keys[1..], target))
  {
    var k, op := keys[0], UpdateOp(keys[0], target.ValueOf(keys[0]));
    assert k in Elements(keys) && k in Elements(h.order);
    assert forall x :: x in keys[1..] ==> x in Elements(keys);
    assert Updates(keys, target)[0] == op && Updates(keys, target)[1..] == Updates(keys[1..], target);
    hide Updates;
  }

  lemma {:induction false} WriteMoves<K, V>(h: Held<K, V>, ops: seq<ReconcileOp<K, V>>)
    requires Distinct(h.order) && forall i :: 0 <= i < |ops| ==> ops[i].MoveOp?
    ensures WriteAll(h, ops).values == h.values
    decreases |ops|
  {
    hide Apply;
    if ops != [] { WriteMoves(Write(h, ops[0]), ops[1..]); }
  }

  /** Replaying the op set gives the collection the target keys with the target values, and
      nothing of what only the prior level held. */
  lemma {:induction false} ReplayGivesValues<K, V>(prior: Level<K, V>, target: Level<K, V>)
    requires Distinct(prior.order) && Distinct(target.order)
    ensures var r := WriteAll(HeldOf(prior), Ops(prior, target));
            Elements(r.order) == Elements(target.order) && r.values == HeldOf(target).values
  {
    hide *;
    var a, b := prior.order, target.order;
    var gone, made, commons := OnlyIn(a, b), OnlyIn(b, a), CommonKeys(a, b);
    var changed := Restrict(commons, Changed(prior, target));
    KeysOf(prior, target);
    OpsAre(prior, target);
    ReplayResult(prior, target);
    WriteOrder(HeldOf(prior), Ops(prior, target));
    BothParts(commons, made);
    assert Elements(commons + made) == Elements(b);
    MovesAreMoves<K, V>(MovedKeys(a, b), commons);
    PhasesWrite(HeldOf(prior), gone, made, changed, target, Moves<K, V>(MovedKeys(a, b), commons));
    ValuesMeet(prior, target, gone, made, changed);
  }

  /** The replay reproduces the whole target level, order and values, if and only if every key
      in front of a shared key is itself shared. */
  lemma {:induction false} ReplayIsTargetIff<K, V>(prior: Level<K, V>, target: Level<K, V>)
    requires Distinct(prior.order) && Distinct(target.order)
    ensures WriteAll(HeldOf(prior), Ops(prior, target)) == HeldOf(target)
            <==> (forall i, j :: 0 <= i < j < |target.order| && target.order[j] in prior.order ==>
                    target.order[i] in prior.order)
  {
    hide *;
    OpsAre(prior, target);
    OpsAre(target, target);
    ReplayGivesValues(prior, target);
    WriteOrder(HeldOf(prior), Ops(prior, target));
    ReplayReachesTarget(prior, target);
  }

  lemma {:induction false} BothParts<K>(a: seq<K>, b: seq<K>)
    ensures Elements(a + b) == Elements(a) + Elements(b)
  {
  }

  lemma {:induction false} OpsAre<K, V>(prior: Level<K, V>, target: Level<K, V>)
    ensures var a, b := prior.order, target.order; var commons := CommonKeys(a, b);
            && Elements(MovedKeys(a, b)) <= Elements(commons)
            && Ops(prior, target)
               == Removes<K, V>(OnlyIn(a, b)) + Inserts(OnlyIn(b, a), target)
                  + Updates(Restrict(commons, Changed(prior, target)), target) + Moves<K, V>(MovedKeys(a, b), commons)
    ensures HeldOf(prior).order == prior.order
  {
    MovedIn(prior.order, target.order);
    hide CommonKeys, MovedKeys, OnlyIn, Changed;
  }

  /** The four phases one after the other. */
  lemma {:induction false} PhasesWrite<K, V>(h: Held<K, V>, gone: seq<K>, made: seq<K>, changed: seq<K>,
      target: Level<K, V>, moves: seq<ReconcileOp<K, V>>)
    requires Distinct(h.order) && Distinct(gone) && Elements(gone) <= Elements(h.order)
    requires Distinct(made) && Elements(h.order) !! Elements(made)
    requires Elements(changed) <= Elements(h.order) - Elements(gone)
    requires forall i :: 0 <= i < |moves| ==> moves[i].MoveOp?
    ensures WriteAll(h, Removes<K, V>(gone) + Inserts(made, target) + Updates(changed, target) + moves).values
            == h.values - Elements(gone) + Given(made, target) + Given(changed, target)
  {
    hide WriteAll, Removes, Inserts, Updates, Given, Write;
    var r, i, u := Removes<K, V>(gone), Inserts(made, target), Updates(changed, target);
    WriteAppend(h, r + i + u, moves);
    WriteAppend(h, r + i, u);
    WriteAppend(h, r, i);
    WriteRemoves(h, gone);
    WriteOrder(h, r);
    ReplayRemoves<K, V>(h.order, gone);
    RestrictMembers(h.order, Elements(h.order) - Elements(gone));
    var h1 := WriteAll(h, r);
    assert Elements(h1.order) == Elements(h.order) - Elements(gone);
    WriteInserts(h1, made, target);
    InsertsOrder(h1, made, target);
    var h2 := WriteAll(h1, i);
    WriteUpdates(h2, changed, target);
    WriteMoves(WriteAll(h2, u), moves);
  }

  lemma {:induction false} MovesAreMoves<K, V>(keys: seq<K>, commons: seq<K>)
    requires Elements(keys) <= Elements(commons)
    ensures forall i :: 0 <= i < |Moves<K, V>(keys, commons)| ==> Moves<K, V>(keys, commons)[i].MoveOp?
  {
  }

  lemma {:induction false} KeysOf<K, V>(prior: Level<K, V>, target: Level<K, V>)
    requires Distinct(prior.order) && Distinct(target.order)
    ensures var a, b := prior.order, target.order;
            && Distinct(OnlyIn(a, b)) && Elements(OnlyIn(a, b)) == Elements(a) - Elements(b)
            && Distinct(OnlyIn(b, a)) && Elements(OnlyIn(b, a)) == Elements(b) - Elements(a)
            && Elements(CommonKeys(a, b)) == Elements(a) * Elements(b)
            && Elements(Restrict(CommonKeys(a, b), Changed(prior, target)))
               == (set k | k in Elements(a) * Elements(b) && prior.ValueOf(k) != target.ValueOf(k))
  {
    var a, b := prior.order, target.order;
    RestrictDistinct(a, Elements(a) - Elements(b));
    RestrictDistinct(b, Elements(b) - Elements(a));
    RestrictMembers(a, Elements(a) - Elements(b));
    RestrictMembers(b, Elements(b) - Elements(a));
    RestrictMembers(CommonKeys(a, b), Changed(prior, target));
    CommonIn(a, b);
  }

  lemma {:induction false} ValuesMeet<K, V>(prior: Level<K, V>, target: Level<K, V>, gone: seq<K>, made: seq<K>,
      changed: seq<K>)
    requires Elements(gone) == Elements(prior.order) - Elements(target.order)
    requires Elements(made) == Elements(target.order) - Elements(prior.order)
    requires Elements(changed) == (set k | k in Elements(prior.order) * Elements(target.order)
                                           && prior.ValueOf(k) != target.ValueOf(k))
    ensures HeldOf(prior).values - Elements(gone) + Given(made, target) + Given(changed, target)
            == HeldOf(target).values
  {
    assert forall k :: k in prior.order <==> k in Elements(prior.order);
    assert forall k :: k in target.order <==> k in Elements(target.order);
    assert forall k :: k in gone <==> k in Elements(gone);
    assert forall k :: k in made <==> k in Elements(made);
    assert forall k :: k in changed <==> k in Elements(changed);
  }

  /** Exactly which ops are emitted: a remove for every key of the prior level alone, an insert
      for every key of the target level alone, an update for every common key with another
      value, each with its target value, and a move for every common key off the stable run. */
  lemma {:induction false} EmittedIff<K, V>(prior: Level<K, V>, target: Level<K, V>, op: ReconcileOp<K, V>)
    requires Distinct(prior.order) && Distinct(target.order)
    ensures var a, b := Elements(prior.order), Elements(target.order);
            op in Ops(prior, target)
            <==> (match op
                  case RemoveOp(k) => k in a && k !in b
                  case InsertOp(k, v) => k in b && k !in a && v == target.ValueOf(k)
                  case UpdateOp(k, v) =>
                    k in a && k in b && prior.ValueOf(k) != target.ValueOf(k) && v == target.ValueOf(k)
                  case MoveOp(k, after) =>
                    k in a && k in b && k !in StableKeys(prior.order, target.order)
                    && k in CommonKeys(prior.order, target.order)
                    && after == Predecessor(CommonKeys(prior.order, target.order), k))
  {
    var a, b := prior.order, target.order;
    KeysOf(prior, target);
    MovedIn(a, b);
    var commons := CommonKeys(a, b);
    hide Restrict, StableKeys, Changed, Predecessor;
    RemoveIn<K, V>(OnlyIn(a, b), op);
    InsertIn(OnlyIn(b, a), target, op);
    UpdateIn(Restrict(commons, Changed(prior, target)), target, op);
    MoveIn<K, V>(MovedKeys(a, b), commons, op);
    hide Removes, Inserts, Updates, Moves, MovedKeys, OnlyIn, CommonKeys;
    if op.MoveOp? {
      InElements(commons, op.key);
      InElements(StableKeys(a, b), op.key);
    }
  }

  lemma {:induction false} InElements<K>(keys: seq<K>, k: K)
    ensures k in keys <==> k in Elements(keys)
  {
  }

  lemma {:induction false} RemoveIn<K, V>(keys: seq<K>, op: ReconcileOp<K, V>)
    ensures op in Removes<K, V>(keys) <==> op.RemoveOp? && op.key in Elements(keys)
  {
    if op.RemoveOp? && op.key in Elements(keys) {
      var i :| 0 <= i < |keys| && keys[i] == op.key;
      assert Removes<K, V>(keys)[i] == op;
    }
  }

  lemma {:induction false} InsertIn<K, V>(keys: seq<K>, target: Level<K, V>, op: ReconcileOp<K, V>)
    ensures op in Inserts(keys, target)
            <==> op.InsertOp? && op.key in Elements(keys) && op.value == target.ValueOf(op.key)
  {
    if op.InsertOp? && op.key in Elements(keys) && op.value == target.ValueOf(op.key) {
      var i :| 0 <= i < |keys| && keys[i] == op.key;
      assert Inserts(keys, target)[i] == op;
    }
  }

  lemma {:induction false} UpdateIn<K, V>(keys: seq<K>, target: Level<K, V>, op: ReconcileOp<K, V>)
    ensures op in Updates(keys, target)
            <==> op.UpdateOp? && op.key in Elements(keys) && op.value == target.ValueOf(op.key)
  {
    if op.UpdateOp? && op.key in Elements(keys) && op.value == target.ValueOf(op.key) {
      var i :| 0 <= i < |keys| && keys[i] == op.key;
      assert Updates(keys, target)[i] == op;
    }
  }

  lemma {:induction false} MoveIn<K, V>(keys: seq<K>, commons: seq<K>, op: ReconcileOp<K, V>)
    requires Elements(keys) <= Elements(commons)
    ensures op in Moves<K, V>(keys, commons)
            <==> op.MoveOp? && op.key in Elements(keys) && op.key in commons && op.after == Predecessor(commons, op.key)
  {
    hide Predecessor;
    forall i | 0 <= i < |keys| ensures keys[i] in Elements(keys) && keys[i] in commons {
      InElements(keys, keys[i]);
      InElements(commons, keys[i]);
    }
    if op.MoveOp? && op.key in Elements(keys) && op.key in commons && op.after == Predecessor(commons, op.key) {
      var i :| 0 <= i < |keys| && keys[i] == op.key;
      assert Moves<K, V>(keys, commons)[i] == op;
    }
  }
}
