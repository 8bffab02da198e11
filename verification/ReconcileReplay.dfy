/** What the reconcile op set does when it is replayed through the key list, and why no
    shorter list of moves would do. */
module ReconcileReplay {
  import opened Wrappers
  import opened Sequences
  import opened KeyedOrders
  import opened Lis
  import opened Reconciliation

  /** One op on the key list. */
  function Apply<K(==), V>(order: seq<K>, op: ReconcileOp<K, V>): (r: seq<K>)
    requires Distinct(order)
    ensures Distinct(r)
  {
    match op
    case RemoveOp(k) => if k in order then (LiftDistinct(order, k); Lift(order, k)) else order
    case InsertOp(k, _) => if k in order then order else order + [k]
    case UpdateOp(_, _) => order
    case MoveOp(k, after) =>
      if after.None? then
        MoveKeepsKeys(order, k, 0);
        MoveTo(order, k, 0)
      else
        MoveAfterKeeps(order, k, after.value);
        MoveAfter(order, k, after.value)
  }

  lemma {:induction false} MoveAfterKeeps<K>(order: seq<K>, key: K, anchor: K)
    requires Distinct(order)
    ensures var r := MoveAfter(order, key, anchor); Distinct(r) && Elements(r) == Elements(order)
  {
    if key in order && anchor in order {
      var from, a := IndexOf(order, key), IndexOf(order, anchor);
      AfterSlot(order, key, anchor);
      MoveKeepsKeys(order, key, if from <= a then a else a + 1);
    }
  }

  function Replay<K(==), V>(order: seq<K>, ops: seq<ReconcileOp<K, V>>): (r: seq<K>)
    requires Distinct(order)
    ensures Distinct(r)
    decreases |ops|
  {
    if ops == [] then order else Replay(Apply(order, ops[0]), ops[1..])
  }

  lemma {:induction false} ReplayAppend<K, V>(order: seq<K>, a: seq<ReconcileOp<K, V>>, b: seq<ReconcileOp<K, V>>)
    requires Distinct(order)
    ensures Replay(order, a + b) == Replay(Replay(order, a), b)
    decreases |a|
  {
    if a == [] {
      assert a + b == b;
    } else {
      assert (a + b)[1..] == a[1..] + b;
      ReplayAppend(Apply(order, a[0]), a[1..], b);
    }
  }

  lemma {:induction false} ReplayRemoves<K, V>(order: seq<K>, keys: seq<K>)
    requires Distinct(order) && Distinct(keys) && Elements(keys) <= Elements(order)
    ensures Replay(order, Removes<K, V>(keys)) == Restrict(order, Elements(order) - Elements(keys))
    decreases |keys|
  {
    if keys == [] {
      RestrictAll(order, Elements(order) - Elements(keys));
    } else {
      var k := keys[0];
      RemovesStep<K, V>(order, keys);
      ReplayRemoves<K, V>(Lift(order, k), keys[1..]);
      LiftThenRestrict(order, k, Elements(keys[1..]));
    }
  }

  lemma {:induction false} RemovesStep<K, V>(order: seq<K>, keys: seq<K>)
    requires Distinct(order) && Distinct(keys) && keys != [] && Elements(keys) <= Elements(order)
    ensures keys[0] in order && Distinct(Lift(order, keys[0]))
    ensures Elements(keys[1..]) <= Elements(Lift(order, keys[0])) && Elements(keys) == {keys[0]} + Elements(keys[1..])
    ensures Replay(order, Removes<K, V>(keys)) == Replay(Lift(order, keys[0]), Removes<K, V>(keys[1..]))
  {
    var k := keys[0];
    HeadAndTail(keys);
    assert k in Elements(keys);
    LiftDistinct(order, k);
    var ops := Removes<K, V>(keys);
    assert ops[0] == RemoveOp(k) && ops[1..] == Removes<K, V>(keys[1..]);
  }

  lemma {:induction false} HeadAndTail<K>(keys: seq<K>)
    requires Distinct(keys) && keys != []
    ensures Distinct(keys[1..]) && keys[0] !in Elements(keys[1..]) && Elements(keys) == {keys[0]} + Elements(keys[1..])
  {
    assert keys == [keys[0]] + keys[1..];
  }

  lemma {:induction false} LiftThenRestrict<K>(order: seq<K>, k: K, drop: set<K>)
    requires Distinct(order) && k in order
    ensures Restrict(Lift(order, k), Elements(Lift(order, k)) - drop) == Restrict(order, Elements(order) - ({k} + drop))
  {
    LiftDistinct(order, k);
    RestrictLift(order, k);
    var keep := Elements(Lift(order, k)) - drop;
    RestrictTwice(order, Elements(order) - {k}, keep);
    assert (Elements(order) - {k}) * keep == Elements(order) - ({k} + drop);
  }

  lemma {:induction false} ReplayInserts<K, V>(order: seq<K>, keys: seq<K>, target: Level<K, V>)
    requires Distinct(order) && Distinct(keys) && Elements(order) !! Elements(keys)
    ensures Replay(order, Inserts(keys, target)) == order + keys
    decreases |keys|
  {
    if keys == [] {
      assert order + keys == order;
    } else {
      assert keys[0] in Elements(keys) && keys[0] !in Elements(order);
      assert forall x :: x in keys[1..] ==> x in Elements(keys) && x != keys[0];
      assert Inserts(keys, target)[1..] == Inserts(keys[1..], target);
      assert (order + [keys[0]]) + keys[1..] == order + keys;
      ReplayInserts(order + [keys[0]], keys[1..], target);
    }
  }

  lemma {:induction false} ReplayUpdates<K, V>(order: seq<K>, keys: seq<K>, target: Level<K, V>)
    requires Distinct(order)
    ensures Replay(order, Updates(keys, target)) == order
  {
    if keys != [] {
      assert Updates(keys, target)[1..] == Updates(keys[1..], target);
      ReplayUpdates(order, keys[1..], target);
    }
  }

  /** The moves still to come once the first `j` common keys are settled. */
  function MovesFrom<K(==), V>(commons: seq<K>, stable: set<K>, j: nat): seq<ReconcileOp<K, V>>
    requires j <= |commons|
    decreases |commons| - j
  {
    if j == |commons| then []
    else (if commons[j] in stable then [] else [MoveOp(commons[j], if j == 0 then None else Some(commons[j - 1]))])
         + MovesFrom(commons, stable, j + 1)
  }

  lemma {:induction false} MovesAreMovesFrom<K, V>(commons: seq<K>, stable: set<K>, j: nat)
    requires Distinct(commons) && j <= |commons|
    ensures Elements(Restrict(commons[j..], Elements(commons) - stable)) <= Elements(commons)
    ensures Moves<K, V>(Restrict(commons[j..], Elements(commons) - stable), commons) == MovesFrom(commons, stable, j)
    decreases |commons| - j
  {
    var rest := Restrict(commons[j..], Elements(commons) - stable);
    RestrictMembers(commons[j..], Elements(commons) - stable);
    if j < |commons| {
      assert commons[j..][1..] == commons[j + 1..];
      assert commons[j] in Elements(commons);
      MovesAreMovesFrom<K, V>(commons, stable, j + 1);
      DistinctIndex(commons, j);
      var tail := Restrict(commons[j + 1..], Elements(commons) - stable);
      if commons[j] !in stable {
        assert rest == [commons[j]] + tail;
        MovesCons<K, V>(rest, commons);
      } else {
        assert rest == tail;
      }
    }
  }

  lemma {:induction false} MovesCons<K, V>(keys: seq<K>, commons: seq<K>)
    requires keys != [] && Elements(keys) <= Elements(commons)
    ensures keys[0] in Elements(keys) && Elements(keys[1..]) <= Elements(commons)
    ensures Moves<K, V>(keys, commons)
            == [MoveOp(keys[0], Predecessor(commons, keys[0]))] + Moves<K, V>(keys[1..], commons)
  {
    assert forall x :: x in keys[1..] ==> x in Elements(keys);
  }

  /** The keys that sit in target order before the `j`-th move step. */
  function Settled<K(==)>(commons: seq<K>, stable: set<K>, j: nat): set<K>
    requires j <= |commons|
  {
    Elements(commons[..j]) + stable
  }

  /** Each move puts one more key into its target place among the settled ones. */
  lemma {:induction false} MoveSettles<K>(order: seq<K>, commons: seq<K>, stable: set<K>, j: nat)
    requires Distinct(order) && Distinct(commons) && Elements(order) == Elements(commons)
    requires j < |commons| && commons[j] !in stable && stable <= Elements(commons)
    requires Restrict(order, Settled(commons, stable, j)) == Restrict(commons, Settled(commons, stable, j))
    ensures var r := Apply<K, bool>(order, MoveOp(commons[j], if j == 0 then None else Some(commons[j - 1])));
            Elements(r) == Elements(commons)
            && Restrict(r, Settled(commons, stable, j + 1)) == Restrict(commons, Settled(commons, stable, j + 1))
  {
    var k, keep := commons[j], Settled(commons, stable, j);
    var later := CommonsAround(commons, stable, j);
    assert k in Elements(commons);
    if j == 0 {
      assert commons[..j] == [];
      SettleFirst(order, k, keep, later);
    } else {
      assert commons[j - 1] in Elements(commons);
      SettleBehind(order, k, commons[j - 1], keep, commons[..j], later);
    }
  }

  lemma {:induction false} SettleFirst<K>(order: seq<K>, k: K, keep: set<K>, later: seq<K>)
    requires Distinct(order) && k in order && k !in keep && Restrict(order, keep) == later
    ensures Elements(MoveTo(order, k, 0)) == Elements(order)
    ensures Restrict(MoveTo(order, k, 0), keep + {k}) == [k] + later
  {
    LiftDistinct(order, k);
    var rest := Lift(order, k);
    LiftKeeps(order, k, keep);
    assert k !in Elements(rest);
    InsertSplits(rest, 0, k, keep, keep + {k});
    MoveToInRange(order, k, 0);
    MoveKeepsKeys(order, k, 0);
    assert rest[0..] == rest;
  }

  lemma {:induction false} SettleBehind<K>(order: seq<K>, k: K, a: K, keep: set<K>, prefix: seq<K>, later: seq<K>)
    requires Distinct(order) && k in order && k !in keep && Restrict(order, keep) == prefix + later
    requires a in order && a != k && prefix != [] && prefix[|prefix| - 1] == a
    ensures Elements(MoveAfter(order, k, a)) == Elements(order)
    ensures Restrict(MoveAfter(order, k, a), keep + {k}) == prefix + [k] + later
  {
    LiftDistinct(order, k);
    var rest := Lift(order, k);
    LiftKeeps(order, k, keep);
    assert k !in Elements(rest) && a in Elements(rest);
    var i := IndexOf(rest, a) + 1;
    InsertSplits(rest, i, k, keep, keep + {k});
    MoveAfterKeeps(order, k, a);
    AnchorCuts(rest, keep, prefix, later, i);
  }

  /** The target order around its `j`-th key, seen through the settled keys. */
  lemma {:induction false} CommonsAround<K>(commons: seq<K>, stable: set<K>, j: nat) returns (later: seq<K>)
    requires Distinct(commons) && j < |commons| && commons[j] !in stable
    ensures commons[j] !in Settled(commons, stable, j)
    ensures Settled(commons, stable, j + 1) == Settled(commons, stable, j) + {commons[j]}
    ensures Restrict(commons, Settled(commons, stable, j)) == commons[..j] + later
    ensures Restrict(commons, Settled(commons, stable, j + 1)) == commons[..j] + [commons[j]] + later
  {
    var k, keep, keep' := commons[j], Settled(commons, stable, j), Settled(commons, stable, j + 1);
    assert commons[..j + 1] == commons[..j] + [k];
    assert k !in commons[..j] && k !in commons[j + 1..];
    assert commons == commons[..j] + [k] + commons[j + 1..];
    later := Restrict(commons[j + 1..], keep);
    RestrictAround(commons[..j], k, commons[j + 1..], keep);
    RestrictAround(commons[..j], k, commons[j + 1..], keep');
    RestrictSame(commons[j + 1..], keep, keep');
    assert commons[..j] + [] == commons[..j];
  }

  lemma {:induction false} RestrictAround<K>(front: seq<K>, k: K, back: seq<K>, keep: set<K>)
    requires Elements(front) <= keep
    ensures Restrict(front + [k] + back, keep) == front + (if k in keep then [k] else []) + Restrict(back, keep)
  {
    RestrictAppend(front + [k], back, keep);
    RestrictAppend(front, [k], keep);
    RestrictAll(front, keep);
  }

  /** Cutting right behind the anchor separates exactly the settled prefix. */
  lemma {:induction false} AnchorCuts<K>(rest: seq<K>, keep: set<K>, prefix: seq<K>, later: seq<K>, i: nat)
    requires Distinct(rest) && Restrict(rest, keep) == prefix + later
    requires prefix != [] && 0 < i <= |rest| && rest[i - 1] == prefix[|prefix| - 1]
    ensures Restrict(rest[..i], keep) == prefix && Restrict(rest[i..], keep) == later
  {
    var a := rest[i - 1];
    RestrictMembers(rest, keep);
    assert a == (prefix + later)[|prefix| - 1];
    assert rest[..i] == rest[..i - 1] + [a];
    RestrictAppend(rest[..i - 1], [a], keep);
    assert rest == rest[..i] + rest[i..];
    RestrictAppend(rest[..i], rest[i..], keep);
    RestrictDistinct(rest, keep);
    CutAt(Restrict(rest[..i], keep), Restrict(rest[i..], keep), prefix, later);
  }

  lemma {:induction false} LiftKeeps<K>(order: seq<K>, k: K, keep: set<K>)
    requires Distinct(order) && k in order && k !in keep
    ensures Restrict(Lift(order, k), keep) == Restrict(order, keep)
  {
    RestrictLift(order, k);
    RestrictTwice(order, Elements(order) - {k}, keep);
    RestrictSame(order, (Elements(order) - {k}) * keep, keep);
  }

  lemma {:induction false} InsertSplits<K>(rest: seq<K>, i: nat, k: K, keep: set<K>, keep': set<K>)
    requires i <= |rest| && k !in rest && keep' == keep + {k}
    ensures Restrict(Insert(rest, i, k), keep') == Restrict(rest[..i], keep) + [k] + Restrict(rest[i..], keep)
  {
    RestrictAppend(rest[..i] + [k], rest[i..], keep');
    RestrictAppend(rest[..i], [k], keep');
    RestrictSame(rest[..i], keep, keep');
    RestrictSame(rest[i..], keep, keep');
  }

  // ----- the whole replay -----

  /** Keys behind the common ones are out of reach of every move. */
  lemma {:induction false} MoveIgnoresTail<K>(order: seq<K>, tail: seq<K>, k: K, after: Option<K>)
    requires Distinct(order) && Distinct(order + tail) && k in order
    requires after.Some? ==> after.value in order && after.value != k
    ensures Apply<K, bool>(order + tail, MoveOp(k, after)) == Apply<K, bool>(order, MoveOp(k, after)) + tail
  {
    if after.None? {
      FrontIgnoresTail(order, tail, k);
    } else {
      AfterIgnoresTail(order, tail, k, after.value);
    }
  }

  lemma {:induction false} FrontIgnoresTail<K>(order: seq<K>, tail: seq<K>, k: K)
    requires Distinct(order) && Distinct(order + tail) && k in order
    ensures MoveTo(order + tail, k, 0) == MoveTo(order, k, 0) + tail
  {
    LiftInFront(order, tail, k);
    MoveToInRange(order + tail, k, 0);
    MoveToInRange(order, k, 0);
    InsertInFront(Lift(order, k), tail, 0, k);
  }

  lemma {:induction false} AfterIgnoresTail<K>(order: seq<K>, tail: seq<K>, k: K, a: K)
    requires Distinct(order) && Distinct(order + tail) && k in order && a in order && a != k
    ensures MoveAfter(order + tail, k, a) == MoveAfter(order, k, a) + tail
  {
    LiftInFront(order, tail, k);
    MoveAfterIs(order, k, a);
    MoveAfterIs(order + tail, k, a);
    var rest := Lift(order, k);
    IndexInFront(rest, tail, a);
    InsertInFront(rest, tail, IndexOf(rest, a) + 1, k);
  }

  lemma {:induction false} MoveAfterIs<K>(order: seq<K>, k: K, a: K)
    requires Distinct(order) && k in order && a in order && a != k
    ensures a in Lift(order, k)
    ensures MoveAfter(order, k, a) == Insert(Lift(order, k), IndexOf(Lift(order, k), a) + 1, k)
  {
    CutMember(order, IndexOf(order, k), a);
    assert a in Lift(order, k);
    hide Distinct, Insert, Cut, Lift, IndexOf;
  }

  lemma {:induction false} InsertInFront<K>(rest: seq<K>, tail: seq<K>, i: nat, k: K)
    requires i <= |rest|
    ensures Insert(rest + tail, i, k) == Insert(rest, i, k) + tail
  {
    assert (rest + tail)[..i] == rest[..i] && (rest + tail)[i..] == rest[i..] + tail;
  }

  lemma {:induction false} LiftInFront<K>(order: seq<K>, tail: seq<K>, k: K)
    requires k in order
    ensures k in order + tail && Lift(order + tail, k) == Lift(order, k) + tail
  {
    IndexInFront(order, tail, k);
  }

  lemma {:induction false} MovesSettleAll<K, V>(order: seq<K>, tail: seq<K>, commons: seq<K>, stable: set<K>, j: nat)
    requires Distinct(order) && Distinct(commons) && Elements(order) == Elements(commons)
    requires Distinct(order + tail) && Elements(order) !! Elements(tail)
    requires j <= |commons| && stable <= Elements(commons)
    requires Restrict(order, Settled(commons, stable, j)) == Restrict(commons, Settled(commons, stable, j))
    ensures Replay(order + tail, MovesFrom<K, V>(commons, stable, j)) == commons + tail
    decreases |commons| - j
  {
    if j == |commons| {
      assert commons[..j] == commons;
      RestrictAll(order, Settled(commons, stable, j));
      RestrictAll(commons, Settled(commons, stable, j));
    } else {
      assert commons[..j + 1] == commons[..j] + [commons[j]];
      if commons[j] in stable {
        assert Settled(commons, stable, j + 1) == Settled(commons, stable, j);
        assert MovesFrom<K, V>(commons, stable, j) == MovesFrom<K, V>(commons, stable, j + 1);
        MovesSettleAll<K, V>(order, tail, commons, stable, j + 1);
      } else {
        var k, after := commons[j], if j == 0 then None else Some(commons[j - 1]);
        assert k in Elements(commons) && (j > 0 ==> commons[j - 1] in Elements(commons));
        MoveSettles(order, commons, stable, j);
        MoveIgnoresTail(order, tail, k, after);
        var next := Apply<K, bool>(order, MoveOp(k, after));
        var ops := MovesFrom<K, V>(commons, stable, j);
        assert ops[0] == MoveOp(k, after) && ops[1..] == MovesFrom<K, V>(commons, stable, j + 1);
        assert Apply<K, V>(order + tail, MoveOp(k, after)) == next + tail;
        assert Distinct(next + tail);
        MovesSettleAll<K, V>(next, tail, commons, stable, j + 1);
      }
    }
  }

  /** `s` climbs strictly in `p`. */
  ghost predicate Climbs<K>(p: map<K, int>, s: seq<K>) {
    && (forall k :: k in s ==> k in p)
    && (forall i, j :: 0 <= i < j < |s| ==> p[s[i]] < p[s[j]])
  }

  lemma {:induction false} RestrictClimbs<K>(p: map<K, int>, s: seq<K>, keep: set<K>)
    requires forall k :: k in s && k in keep ==> k in p
    requires forall i, j :: 0 <= i < j < |s| && s[i] in keep && s[j] in keep ==> p[s[i]] < p[s[j]]
    ensures Climbs(p, Restrict(s, keep))
  {
    RestrictMembers(s, keep);
    if s != [] {
      RestrictClimbs(p, s[1..], keep);
      RestrictMembers(s[1..], keep);
      var r := Restrict(s[1..], keep);
      if s[0] in keep {
        forall j | 0 <= j < |r| ensures p[s[0]] < p[r[j]] {
          assert r[j] in s[1..];
          var i :| 1 <= i < |s| && s[i] == r[j];
        }
        assert Restrict(s, keep) == [s[0]] + r;
      }
    }
  }

  lemma {:induction false} NoElements<K>(s: seq<K>)
    ensures s == [] <==> Elements(s) == {}
  {
    if s != [] {
      assert s[0] in Elements(s);
    }
  }

  lemma {:induction false} TailElements<K>(p: map<K, int>, a: seq<K>)
    requires Climbs(p, a) && a != []
    ensures Elements(a[1..]) == Elements(a) - {a[0]} && Climbs(p, a[1..])
  {
    assert a == [a[0]] + a[1..];
    assert a[0] !in a[1..];
  }

  /** Two lists of the same keys that both climb are one list. */
  lemma {:induction false} ClimbsUnique<K>(p: map<K, int>, a: seq<K>, b: seq<K>)
    requires Climbs(p, a) && Climbs(p, b) && Elements(a) == Elements(b)
    ensures a == b
    decreases |a|
  {
    NoElements(a);
    NoElements(b);
    if a != [] {
      assert a[0] in Elements(b) && b[0] in Elements(a);
      var i :| 0 <= i < |a| && a[i] == b[0];
      var j :| 0 <= j < |b| && b[j] == a[0];
      assert a[0] == b[0];
      TailElements(p, a);
      TailElements(p, b);
      ClimbsUnique(p, a[1..], b[1..]);
    }
  }

  lemma {:induction false} IndexClimbs<K>(prior: seq<K>, commons: seq<K>, keep: set<K>)
    requires Distinct(prior) && Elements(commons) <= Elements(prior) && keep <= Elements(commons)
    ensures Climbs(PriorIndex(prior, commons), Restrict(prior, keep))
  {
    forall i, j | 0 <= i < j < |prior| && prior[i] in keep && prior[j] in keep
      ensures PriorIndex(prior, commons)[prior[i]] < PriorIndex(prior, commons)[prior[j]]
    {
      DistinctIndex(prior, i);
      DistinctIndex(prior, j);
    }
    RestrictClimbs(PriorIndex(prior, commons), prior, keep);
  }

  /** The stable keys already stand in the same relative order on both sides. */
  lemma {:induction false} StableAgree<K>(prior: seq<K>, target: seq<K>)
    requires Distinct(prior) && Distinct(target)
    ensures var stable := Elements(StableKeys(prior, target));
            Restrict(Restrict(prior, Elements(target)), stable) == Restrict(CommonKeys(prior, target), stable)
  {
    var commons := CommonKeys(prior, target);
    var stable := Elements(StableKeys(prior, target));
    CommonIn(prior, target);
    StableIn(prior, target);
    StableClimbs(prior, target);
    IndexClimbs(prior, commons, stable);
    RestrictTwice(prior, Elements(target), stable);
    RestrictSame(prior, Elements(target) * stable, stable);
    RestrictMembers(prior, stable);
    RestrictMembers(commons, stable);
    ClimbsUnique(PriorIndex(prior, commons), Restrict(prior, stable), Restrict(commons, stable));
  }

  lemma {:induction false} StableClimbs<K>(prior: seq<K>, target: seq<K>)
    requires Distinct(prior) && Distinct(target)
    ensures Elements(CommonKeys(prior, target)) <= Elements(prior)
    ensures Climbs(PriorIndex(prior, CommonKeys(prior, target)),
        Restrict(CommonKeys(prior, target), Elements(StableKeys(prior, target))))
  {
    var commons := CommonKeys(prior, target);
    CommonIn(prior, target);
    var p := PriorIndex(prior, commons);
    var s := Values(p, commons);
    var best := Best(s, 0, None);
    BestRises(s, 0, None);
    var keys := Pick(commons, best);
    assert keys == StableKeys(prior, target);
    var stable := Elements(keys);
    forall i, j | 0 <= i < j < |commons| && commons[i] in stable && commons[j] in stable
      ensures p[commons[i]] < p[commons[j]]
    {
      var a :| 0 <= a < |keys| && keys[a] == commons[i];
      var b :| 0 <= b < |keys| && keys[b] == commons[j];
      assert best[a] == i && best[b] == j;
      assert s[best[a]] < s[best[b]];
    }
    RestrictClimbs(p, commons, stable);
  }

  /** The moves alone turn the prior order of the common keys into the target order. */
  lemma {:induction false} MovesReachTarget<K, V>(prior: seq<K>, target: seq<K>, tail: seq<K>)
    requires Distinct(prior) && Distinct(target) && Distinct(tail) && Elements(tail) !! Elements(prior)
    ensures Elements(MovedKeys(prior, target)) <= Elements(CommonKeys(prior, target))
    ensures Distinct(Restrict(prior, Elements(target)) + tail)
    ensures Replay(Restrict(prior, Elements(target)) + tail,
        Moves<K, V>(MovedKeys(prior, target), CommonKeys(prior, target)))
            == CommonKeys(prior, target) + tail
  {
    var start, commons := Restrict(prior, Elements(target)), CommonKeys(prior, target);
    var stable := Elements(StableKeys(prior, target));
    CommonIn(prior, target);
    StableIn(prior, target);
    MovedIn(prior, target);
    RestrictDistinct(prior, Elements(target));
    RestrictMembers(prior, Elements(target));
    assert Elements(start) == Elements(commons);
    forall i, j | 0 <= i < |start| && 0 <= j < |tail| ensures start[i] != tail[j] {
      assert start[i] in Elements(start) && tail[j] in Elements(tail);
    }
    StableAgree(prior, target);
    assert commons[..0] == [] && commons[0..] == commons;
    assert Settled(commons, stable, 0) == stable;
    MovesAreMovesFrom<K, V>(commons, stable, 0);
    MovesSettleAll<K, V>(start, tail, commons, stable, 0);
  }

  /** Replaying the whole op set through the key list yields the common keys in target
      order, followed by the new ones: an insert carries no position. */
  lemma {:induction false} ReplayResult<K, V>(prior: Level<K, V>, target: Level<K, V>)
    requires Distinct(prior.order) && Distinct(target.order)
    ensures Replay(prior.order, Ops(prior, target))
            == CommonKeys(prior.order, target.order) + OnlyIn(target.order, prior.order)
  {
    var a, b := prior.order, target.order;
    var gone, fresh', commons := OnlyIn(a, b), OnlyIn(b, a), CommonKeys(a, b);
    var keep := Restrict(a, Elements(b));
    RestrictDistinct(a, Elements(a) - Elements(b));
    RestrictDistinct(b, Elements(b) - Elements(a));
    RestrictMembers(a, Elements(a) - Elements(b));
    RestrictMembers(b, Elements(b) - Elements(a));
    RestrictMembers(a, Elements(b));
    RestrictDistinct(a, Elements(b));
    MovedIn(a, b);
    var r, i, u, m := Removes<K, V>(gone), Inserts(fresh', target),
        Updates(Restrict(commons, Changed(prior, target)), target), Moves<K, V>(MovedKeys(a, b), commons);
    ReplayAppend(a, r + i + u, m);
    ReplayAppend(a, r + i, u);
    ReplayAppend(a, r, i);
    ReplayRemoves<K, V>(a, gone);
    RestrictSame(a, Elements(a) - Elements(gone), Elements(b));
    ReplayInserts(keep, fresh', target);
    MovesReachTarget<K, V>(a, b, fresh');
    ReplayUpdates(keep + fresh', Restrict(commons, Changed(prior, target)), target);
  }

  /** The replay reproduces the target order exactly when the target lists its new keys
      behind all the keys it shares with the prior level. */
  lemma {:induction false} ReplayReachesTarget<K, V>(prior: Level<K, V>, target: Level<K, V>)
    requires Distinct(prior.order) && Distinct(target.order)
    ensures Replay(prior.order, Ops(prior, target)) == target.order
            <==> (forall i, j :: 0 <= i < j < |target.order| && target.order[j] in prior.order ==>
                    target.order[i] in prior.order)
  {
    ReplayResult(prior, target);
    NewKeysLast(prior.order, target.order);
  }

  lemma {:induction false} NewKeysLast<K>(prior: seq<K>, target: seq<K>)
    ensures CommonKeys(prior, target) + OnlyIn(target, prior) == target
            <==> (forall i, j :: 0 <= i < j < |target| && target[j] in prior ==> target[i] in prior)
  {
    if CommonKeys(prior, target) + OnlyIn(target, prior) == target {
      SharedFirst(prior, target);
    }
    if forall i, j :: 0 <= i < j < |target| && target[j] in prior ==> target[i] in prior {
      SharedFirstSplits(prior, target);
    }
  }

  lemma {:induction false} SharedFirst<K>(prior: seq<K>, target: seq<K>)
    requires CommonKeys(prior, target) + OnlyIn(target, prior) == target
    ensures forall i, j :: 0 <= i < j < |target| && target[j] in prior ==> target[i] in prior
  {
    var p, q := CommonKeys(prior, target), OnlyIn(target, prior);
    RestrictMembers(target, Elements(prior));
    RestrictMembers(target, Elements(target) - Elements(prior));
    forall i | 0 <= i < |target| ensures target[i] in prior <==> i < |p| {
      if i < |p| {
        assert target[i] == p[i] && p[i] in p;
      } else {
        assert target[i] == q[i - |p|] && q[i - |p|] in q;
      }
    }
  }

  lemma {:induction false} SharedFirstSplits<K>(prior: seq<K>, target: seq<K>)
    requires forall i, j :: 0 <= i < j < |target| && target[j] in prior ==> target[i] in prior
    ensures CommonKeys(prior, target) + OnlyIn(target, prior) == target
  {
    var n := 0;
    while n < |target| && target[n] in prior
      invariant n <= |target|
      invariant forall i :: 0 <= i < n ==> target[i] in prior
    {
      n := n + 1;
    }
    assert target == target[..n] + target[n..];
    assert forall j :: n <= j < |target| ==> target[j] !in prior;
    FrontSplits(target[..n], target[n..], Elements(prior));
  }

  lemma {:induction false} FrontSplits<K>(a: seq<K>, b: seq<K>, keep: set<K>)
    requires Elements(a) <= keep && Elements(b) !! keep
    ensures Restrict(a + b, keep) == a && Restrict(a + b, Elements(a + b) - keep) == b
  {
    var others := Elements(a + b) - keep;
    RestrictAppend(a, b, keep);
    RestrictAppend(a, b, others);
    RestrictAll(a, keep);
    RestrictNone(b, keep);
    RestrictNone(a, others);
    RestrictSame(b, others, Elements(b));
    RestrictAll(b, Elements(b));
  }

  /** One insert in front of a shared key is enough for the replay to miss the target. */
  lemma {:induction false} InsertInFrontIsLost()
    ensures Replay([1], Ops(Level([1], map[1 := 7]), Level([2, 1], map[1 := 7, 2 := 8]))) != [2, 1]
  {
    var prior, target := Level([1], map[1 := 7]), Level([2, 1], map[1 := 7, 2 := 8]);
    ReplayReachesTarget(prior, target);
    assert target.order[1] in prior.order && target.order[0] !in prior.order;
  }

  // ----- no shorter list of moves -----

  /** A run of single-key repositions, each to a position of its own choice. */
  function Shuffle<K(==)>(order: seq<K>, steps: seq<(K, int)>): (r: seq<K>)
    requires Distinct(order)
    ensures Distinct(r)
    decreases |steps|
  {
    if steps == [] then order
    else
      MoveKeepsKeys(order, steps[0].0, steps[0].1);
      Shuffle(MoveTo(order, steps[0].0, steps[0].1), steps[1..])
  }

  function Touched<K(==)>(steps: seq<(K, int)>): set<K> {
    set s | s in steps :: s.0
  }

  /** Keys a run never repositions keep their relative order. */
  lemma {:induction false} UntouchedStay<K>(order: seq<K>, steps: seq<(K, int)>, keep: set<K>)
    requires Distinct(order) && keep !! Touched(steps)
    ensures Restrict(Shuffle(order, steps), keep) == Restrict(order, keep)
    decreases |steps|
  {
    if steps != [] {
      var k := steps[0].0;
      assert steps[0] in steps && k in Touched(steps);
      var next := MoveTo(order, k, steps[0].1);
      MoveKeepsKeys(order, k, steps[0].1);
      if k in order {
        LiftKeeps(order, k, keep);
        LiftKeeps(next, k, keep);
      }
      assert forall s :: s in steps[1..] ==> s in steps;
      UntouchedStay(next, steps[1..], keep);
    }
  }

  /** The positions of `s` that hold kept keys. */
  function Places<K(==)>(s: seq<K>, keep: set<K>, from: nat): seq<nat>
    requires from <= |s|
    decreases |s| - from
  {
    if from == |s| then []
    else (if s[from] in keep then [from] else []) + Places(s, keep, from + 1)
  }

  lemma {:induction false} PlacesPick<K>(s: seq<K>, keep: set<K>, from: nat)
    requires from <= |s|
    ensures forall a :: 0 <= a < |Places(s, keep, from)| ==> from <= Places(s, keep, from)[a] < |s|
    ensures forall a, b :: 0 <= a < b < |Places(s, keep, from)| ==> Places(s, keep, from)[a] < Places(s, keep, from)[b]
    ensures Pick(s, Places(s, keep, from)) == Restrict(s[from..], keep)
    decreases |s| - from
  {
    if from < |s| {
      PlacesPick(s, keep, from + 1);
      assert s[from..][1..] == s[from + 1..];
      if s[from] in keep {
        assert Places(s, keep, from) == [from] + Places(s, keep, from + 1);
        assert Pick(s, Places(s, keep, from)) == [s[from]] + Pick(s, Places(s, keep, from + 1));
      }
    }
  }

  /** Kept keys whose prior indices climb form a rising subsequence. */
  lemma {:induction false} PlacesRise<K>(p: map<K, int>, commons: seq<K>, keep: set<K>)
    requires forall k :: k in commons ==> k in p
    requires Climbs(p, Restrict(commons, keep))
    ensures Rising(Values(p, commons), Places(commons, keep, 0), 0, None)
    ensures |Places(commons, keep, 0)| == |Restrict(commons, keep)|
  {
    var s, ps := Values(p, commons), Places(commons, keep, 0);
    PlacesPick(commons, keep, 0);
    assert commons[0..] == commons;
    hide Places, Restrict;
    var picked := Pick(commons, ps);
    forall a, b | 0 <= a < b < |ps| ensures s[ps[a]] < s[ps[b]] {
      assert p[picked[a]] < p[picked[b]];
    }
  }

  /** Keys whose relative order is the same in both levels number at most the stable ones. */
  lemma {:induction false} AgreeingKeysAreFew<K>(prior: seq<K>, target: seq<K>, keep: set<K>)
    requires Distinct(prior) && Distinct(target)
    requires keep <= Elements(CommonKeys(prior, target))
    requires Restrict(prior, keep) == Restrict(CommonKeys(prior, target), keep)
    ensures |Restrict(CommonKeys(prior, target), keep)| <= |StableKeys(prior, target)|
  {
    hide Best, Places, Restrict, IndexOf, Climbs, Rising, Values, Distinct;
    var commons := CommonKeys(prior, target);
    CommonIn(prior, target);
    var p := PriorIndex(prior, commons);
    IndexClimbs(prior, commons, keep);
    PlacesRise(p, commons, keep);
    LisIsOptimal(p, commons, Places(commons, keep, 0));
  }

  lemma {:induction false} RestrictSplits<K>(s: seq<K>, keep: set<K>)
    ensures |s| == |Restrict(s, keep)| + |Restrict(s, Elements(s) - keep)|
  {
    if s != [] {
      RestrictSplits(s[1..], keep);
      RestrictSame(s[1..], Elements(s) - keep, Elements(s[1..]) - keep);
      assert s[0] in Elements(s);
    }
  }

  /** Any run of repositions that takes the common keys from prior to target order
      touches at least as many keys as the reconcile emits moves. */
  lemma {:induction false} MovesAreMinimal<K>(prior: seq<K>, target: seq<K>, steps: seq<(K, int)>)
    requires Distinct(prior) && Distinct(target)
    requires Distinct(Restrict(prior, Elements(target)))
    requires Shuffle(Restrict(prior, Elements(target)), steps) == CommonKeys(prior, target)
    ensures |Touched(steps)| >= |MovedKeys(prior, target)|
    ensures |steps| >= |MovedKeys(prior, target)|
  {
    var commons, touched := CommonKeys(prior, target), Touched(steps);
    var still := Elements(commons) - touched;
    CommonIn(prior, target);
    StableIn(prior, target);
    UntouchedStay(Restrict(prior, Elements(target)), steps, still);
    RestrictTwice(prior, Elements(target), still);
    RestrictSame(prior, Elements(target) * still, still);
    AgreeingKeysAreFew(prior, target, still);
    RestrictSplits(commons, touched);
    var hit := Restrict(commons, touched);
    RestrictMembers(commons, touched);
    RestrictDistinct(commons, touched);
    DistinctSize(hit);
    SubsetSize(Elements(hit), touched);
    var stable := Elements(StableKeys(prior, target));
    RestrictSplits(commons, stable);
    StableCount(prior, target);
    TouchedSize(steps);
  }

  /** The stable keys, counted inside the common ones. */
  lemma {:induction false} StableCount<K>(prior: seq<K>, target: seq<K>)
    requires Distinct(prior) && Distinct(target)
    ensures |Restrict(CommonKeys(prior, target), Elements(StableKeys(prior, target)))| == |StableKeys(prior, target)|
  {
    var commons, keys := CommonKeys(prior, target), StableKeys(prior, target);
    CommonIn(prior, target);
    StableIn(prior, target);
    var s := Values(PriorIndex(prior, commons), commons);
    BestRises(s, 0, None);
    var best := Best(s, 0, None);
    forall a, b | 0 <= a < b < |keys| ensures keys[a] != keys[b] {
      assert best[a] < best[b];
    }
    RestrictDistinct(commons, Elements(keys));
    RestrictMembers(commons, Elements(keys));
    DistinctSize(keys);
    DistinctSize(Restrict(commons, Elements(keys)));
    assert Elements(Restrict(commons, Elements(keys))) == Elements(keys);
  }

  lemma {:induction false} SubsetSize<K>(a: set<K>, b: set<K>)
    requires a <= b
    ensures |a| <= |b|
  {
    assert b == a + (b - a);
  }

  lemma {:induction false} TouchedSize<K>(steps: seq<(K, int)>)
    ensures |Touched(steps)| <= |steps|
  {
    if steps != [] {
      TouchedSize(steps[1..]);
      assert steps == [steps[0]] + steps[1..];
      assert Touched(steps) == {steps[0].0} + Touched(steps[1..]);
    }
  }
}
