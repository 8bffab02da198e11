/** Keyed reconciliation of a prior level to a target level: `src/lazily/reconciliation.py`. */
module Reconciliation {
  import opened Wrappers
  import opened Sequences
  import opened Lis

  datatype Level<K, V> = Level(order: seq<K>, values: map<K, V>) {
    function ValueOf(key: K): Option<V> {
      if key in values then Some(values[key]) else None
    }
  }

  datatype ReconcileOp<K, V> =
    | RemoveOp(key: K)
    | InsertOp(key: K, value: Option<V>)
    | UpdateOp(key: K, value: Option<V>)
    | MoveOp(key: K, after: Option<K>)

  /** The keys of both levels, in target order. */
  function CommonKeys<K(==)>(prior: seq<K>, target: seq<K>): seq<K> {
    Restrict(target, Elements(prior))
  }

  function PriorIndex<K(==)>(prior: seq<K>, commons: seq<K>): map<K, int>
    requires Elements(commons) <= Elements(prior)
  {
    map k | k in commons :: (assert k in Elements(commons); IndexOf(prior, k))
  }

  lemma {:induction false} CommonIn<K>(prior: seq<K>, target: seq<K>)
    ensures Elements(CommonKeys(prior, target)) == Elements(prior) * Elements(target)
    ensures Distinct(target) ==> Distinct(CommonKeys(prior, target))
  {
    RestrictMembers(target, Elements(prior));
    if Distinct(target) { RestrictDistinct(target, Elements(prior)); }
  }

  /** The keys a reconcile leaves in place. */
  function StableKeys<K(==)>(prior: seq<K>, target: seq<K>): seq<K> {
    CommonIn(prior, target);
    LisKeys(PriorIndex(prior, CommonKeys(prior, target)), CommonKeys(prior, target))
  }

  /** The common keys a reconcile repositions. */
  function MovedKeys<K(==)>(prior: seq<K>, target: seq<K>): seq<K> {
    var commons := CommonKeys(prior, target);
    Restrict(commons, Elements(commons) - Elements(StableKeys(prior, target)))
  }

  /** The key in front of `k`, which a move uses as its anchor. */
  function Predecessor<K(==)>(commons: seq<K>, k: K): Option<K>
    requires k in commons
  {
    var i := IndexOf(commons, k);
    if i == 0 then None else Some(commons[i - 1])
  }

  function Removes<K, V>(keys: seq<K>): seq<ReconcileOp<K, V>> {
    seq(|keys|, i requires 0 <= i < |keys| => RemoveOp(keys[i]))
  }

  function Inserts<K, V>(keys: seq<K>, target: Level<K, V>): seq<ReconcileOp<K, V>> {
    seq(|keys|, i requires 0 <= i < |keys| => InsertOp(keys[i], target.ValueOf(keys[i])))
  }

  function Updates<K, V>(keys: seq<K>, target: Level<K, V>): seq<ReconcileOp<K, V>> {
    seq(|keys|, i requires 0 <= i < |keys| => UpdateOp(keys[i], target.ValueOf(keys[i])))
  }

  function Moves<K(==), V>(keys: seq<K>, commons: seq<K>): seq<ReconcileOp<K, V>>
    requires Elements(keys) <= Elements(commons)
  {
    seq(|keys|, i requires 0 <= i < |keys| =>
      (assert keys[i] in Elements(keys); MoveOp(keys[i], Predecessor(commons, keys[i]))))
  }

  function Changed<K(==), V(==)>(prior: Level<K, V>, target: Level<K, V>): set<K> {
    set k | k in target.order && prior.ValueOf(k) != target.ValueOf(k)
  }

  function OnlyIn<K(==)>(a: seq<K>, b: seq<K>): seq<K> {
    Restrict(a, Elements(a) - Elements(b))
  }

  /** The whole op set: remove ++ insert ++ update ++ move. */
  function Ops<K(==), V(==)>(prior: Level<K, V>, target: Level<K, V>): seq<ReconcileOp<K, V>> {
    var commons := CommonKeys(prior.order, target.order);
    MovedIn(prior.order, target.order);
    Removes<K, V>(OnlyIn(prior.order, target.order))
    + Inserts(OnlyIn(target.order, prior.order), target)
    + Updates(Restrict(commons, Changed(prior, target)), target)
    + Moves<K, V>(MovedKeys(prior.order, target.order), commons)
  }

  lemma {:induction false} MovedIn<K>(prior: seq<K>, target: seq<K>)
    ensures Elements(MovedKeys(prior, target))
            == Elements(CommonKeys(prior, target)) - Elements(StableKeys(prior, target))
  {
    var commons := CommonKeys(prior, target);
    RestrictMembers(commons, Elements(commons) - Elements(StableKeys(prior, target)));
  }

  /** Prior-only keys are removed, in prior order. */
  method EmitRemoves<K(==), V>(prior: seq<K>, targetSet: set<K>) returns (ops: seq<ReconcileOp<K, V>>)
    ensures ops == Removes(Restrict(prior, Elements(prior) - targetSet))
  {
    ops := [];
    for i := 0 to |prior|
      invariant ops == Removes(Restrict(prior[..i], Elements(prior) - targetSet))
    {
      RestrictStep(prior, i, Elements(prior) - targetSet);
      if prior[i] !in targetSet {
        ops := ops + [RemoveOp(prior[i])];
      }
    }
    assert prior[..|prior|] == prior;
  }

  /** Target-only keys are inserted, in target order. */
  method EmitInserts<K(==), V>(target: Level<K, V>, priorSet: set<K>) returns (ops: seq<ReconcileOp<K, V>>)
    ensures ops == Inserts(Restrict(target.order, Elements(target.order) - priorSet), target)
  {
    ops := [];
    for i := 0 to |target.order|
      invariant ops == Inserts(Restrict(target.order[..i], Elements(target.order) - priorSet), target)
    {
      RestrictStep(target.order, i, Elements(target.order) - priorSet);
      if target.order[i] !in priorSet {
        ops := ops + [InsertOp(target.order[i], target.ValueOf(target.order[i]))];
      }
    }
    assert target.order[..|target.order|] == target.order;
  }

  /** Common keys with a new value are updated. */
  method EmitUpdates<K(==), V(==)>(prior: Level<K, V>, target: Level<K, V>, commons: seq<K>)
      returns (ops: seq<ReconcileOp<K, V>>)
    requires Elements(commons) <= Elements(target.order)
    ensures ops == Updates(Restrict(commons, Changed(prior, target)), target)
  {
    ops := [];
    for i := 0 to |commons|
      invariant ops == Updates(Restrict(commons[..i], Changed(prior, target)), target)
    {
      RestrictStep(commons, i, Changed(prior, target));
      assert commons[i] in Elements(commons);
      if prior.ValueOf(commons[i]) != target.ValueOf(commons[i]) {
        ops := ops + [UpdateOp(commons[i], target.ValueOf(commons[i]))];
      }
    }
    assert commons[..|commons|] == commons;
  }

  /** Every common key off the stable run is moved behind its target predecessor. */
  method EmitMoves<K(==), V>(prior: seq<K>, target: seq<K>, commons: seq<K>) returns (ops: seq<ReconcileOp<K, V>>)
    requires Distinct(target) && commons == CommonKeys(prior, target)
    ensures Elements(MovedKeys(prior, target)) <= Elements(commons)
    ensures ops == Moves(MovedKeys(prior, target), commons)
  {
    CommonIn(prior, target);
    StableIn(prior, target);
    MovedIn(prior, target);
    var stable := LisBy(PriorIndex(prior, commons), commons);
    var stableSet := Elements(stable);
    var moved := Restrict(commons, Elements(commons) - stableSet);
    ops := MovesBehind<K, V>(Elements(prior), target, commons, stableSet, moved);
  }

  method MovesBehind<K(==), V>(priorSet: set<K>, target: seq<K>, commons: seq<K>, stable: set<K>, moved: seq<K>)
      returns (ops: seq<ReconcileOp<K, V>>)
    requires Distinct(target) && commons == Restrict(target, priorSet)
    requires Elements(commons) == priorSet * Elements(target) == stable + Elements(moved)
    ensures ops == Moves(moved, commons)
  {
    var movedSet := Elements(moved);
    ops := [];
    for m := 0 to |moved|
      invariant ops == Moves(moved, commons)[..m]
    {
      assert moved[m] in movedSet;
      assert moved[m] in Elements(commons);
      var anchor := Anchor(target, priorSet, stable, movedSet, moved[m]);
      AnchorIsPredecessor(target, priorSet, moved[m]);
      ops := ops + [MoveOp(moved[m], anchor)];
    }
  }

  method ReconcileOps<K(==), V(==)>(prior: Level<K, V>, target: Level<K, V>) returns (ops: seq<ReconcileOp<K, V>>)
    requires Distinct(prior.order) && Distinct(target.order)
    ensures ops == Ops(prior, target)
  {
    var commons := CommonKeys(prior.order, target.order);
    CommonIn(prior.order, target.order);
    var removes := EmitRemoves<K, V>(prior.order, Elements(target.order));
    var inserts := EmitInserts(target, Elements(prior.order));
    var updates := EmitUpdates(prior, target, commons);
    var moves := EmitMoves<K, V>(prior.order, target.order, commons);
    ops := removes + inserts + updates + moves;
  }

  /** The scan for the `after` anchor: the last stable or moved key before `k`. */
  method Anchor<K(==)>(target: seq<K>, priorSet: set<K>, stable: set<K>, moved: set<K>, k: K)
    returns (anchor: Option<K>)
    requires k in target && stable + moved == priorSet * Elements(target)
    ensures anchor == LastOf(Restrict(target[..IndexOf(target, k)], priorSet))
  {
    anchor := None;
    var i := 0;
    while i < |target|
      invariant 0 <= i <= IndexOf(target, k)
      invariant anchor == LastOf(Restrict(target[..i], priorSet))
    {
      var tk := target[i];
      if tk == k {
        break;
      }
      RestrictStep(target, i, priorSet);
      assert tk in Elements(target);
      assert tk in stable + moved <==> tk in priorSet;
      if tk in stable || tk in moved {
        anchor := Some(tk);
      }
      i := i + 1;
    }
  }

  function LastOf<K>(s: seq<K>): Option<K> {
    if s == [] then None else Some(s[|s| - 1])
  }

  lemma {:induction false} RestrictStep<K>(s: seq<K>, i: nat, keep: set<K>)
    requires i < |s|
    ensures Restrict(s[..i + 1], keep) == Restrict(s[..i], keep) + if s[i] in keep then [s[i]] else []
  {
    assert s[..i + 1] == s[..i] + [s[i]];
    RestrictAppend(s[..i], [s[i]], keep);
  }

  lemma {:induction false} AnchorIsPredecessor<K>(target: seq<K>, keep: set<K>, k: K)
    requires Distinct(target) && k in target && k in keep
    ensures k in Restrict(target, keep)
    ensures Predecessor(Restrict(target, keep), k) == LastOf(Restrict(target[..IndexOf(target, k)], keep))
  {
    var t := IndexOf(target, k);
    var c := Restrict(target, keep);
    RestrictDistinct(target, keep);
    assert target == target[..t] + target[t..];
    RestrictAppend(target[..t], target[t..], keep);
    assert target[t..][0] == k;
    var before := Restrict(target[..t], keep);
    assert c[|before|] == k;
    DistinctIndex(c, |before|);
  }

  lemma {:induction false} StableIn<K>(prior: seq<K>, target: seq<K>)
    ensures Elements(StableKeys(prior, target)) <= Elements(CommonKeys(prior, target))
  {
    CommonIn(prior, target);
    var commons := CommonKeys(prior, target);
    BestRises(Values(PriorIndex(prior, commons), commons), 0, None);
  }
}
