/** The key list with its atomic moves: `src/lazily/_keyed_order.py`. */
module KeyedOrders {
  import opened Wrappers
  import opened Sequences

  datatype MapMutation = NoMutation | Inserted | Removed
  datatype MapMove = Missing | Unchanged | Reordered

  /** `move_to`: the key is lifted out and put back at `index`, clamped to the list;
      a missing key changes nothing. */
  function MoveTo<K(==)>(order: seq<K>, key: K, index: int): seq<K>
    requires Distinct(order)
  {
    if key !in order then order
    else Insert(Lift(order, key), if index < 0 then 0 else if index >= |order| then |order| - 1 else index, key)
  }

  /** `move_after` in the documentation's words: `key` comes right behind `anchor`. */
  function MoveAfter<K(==)>(order: seq<K>, key: K, anchor: K): seq<K>
    requires Distinct(order)
  {
    if key !in order || anchor !in order || key == anchor then order
    else
      CutMember(order, IndexOf(order, key), anchor);
      Insert(Lift(order, key), IndexOf(Lift(order, key), anchor) + 1, key)
  }

  /** `move_before`: `key` comes right in front of `anchor`. */
  function MoveBefore<K(==)>(order: seq<K>, key: K, anchor: K): seq<K>
    requires Distinct(order)
  {
    if key !in order || anchor !in order || key == anchor then order
    else
      CutMember(order, IndexOf(order, key), anchor);
      Insert(Lift(order, key), IndexOf(Lift(order, key), anchor), key)
  }

  /** A move neither adds, drops nor duplicates a key. */
  lemma {:induction false} MoveKeepsKeys<K>(order: seq<K>, key: K, index: int)
    requires Distinct(order)
    ensures var r := MoveTo(order, key, index);
            Distinct(r) && Elements(r) == Elements(order) && |r| == |order|
    ensures key in order ==>
              key in MoveTo(order, key, index) && Lift(MoveTo(order, key, index), key) == Lift(order, key)
  {
    if key in order {
      LiftDistinct(order, key);
      assert key !in Elements(Lift(order, key));
      LiftInsert(Lift(order, key), if index < 0 then 0 else if index >= |order| then |order| - 1 else index, key);
    }
  }

  /** Where an index of the order lands once the key is lifted out. */
  lemma {:induction false} AnchorIndex<K>(order: seq<K>, key: K, anchor: K)
    requires Distinct(order) && key in order && anchor in order && key != anchor
    ensures anchor in Lift(order, key)
    ensures var from, a := IndexOf(order, key), IndexOf(order, anchor);
            from != a && IndexOf(Lift(order, key), anchor) == if from < a then a - 1 else a
  {
    CutDistinct(order, IndexOf(order, key));
  }

  /** The slot `move_after` computes on the list before removal is the right one. */
  lemma {:induction false} AfterSlot<K>(order: seq<K>, key: K, anchor: K)
    requires Distinct(order) && key in order && anchor in order
    ensures var from, a := IndexOf(order, key), IndexOf(order, anchor);
            MoveTo(order, key, if from <= a then a else a + 1) == MoveAfter(order, key, anchor)
  {
    var from, a := IndexOf(order, key), IndexOf(order, anchor);
    if key == anchor {
      LiftDistinct(order, key);
    } else {
      AnchorIndex(order, key, anchor);
      var to := IndexOf(Lift(order, key), anchor) + 1;
      assert to == if from <= a then a else a + 1;
      MoveToInRange(order, key, to);
    }
  }

  /** And so is the slot of `move_before`. */
  lemma {:induction false} BeforeSlot<K>(order: seq<K>, key: K, anchor: K)
    requires Distinct(order) && key in order && anchor in order
    ensures var from, a := IndexOf(order, key), IndexOf(order, anchor);
            MoveTo(order, key, if from < a then a - 1 else a) == MoveBefore(order, key, anchor)
  {
    var from, a := IndexOf(order, key), IndexOf(order, anchor);
    if key == anchor {
      LiftDistinct(order, key);
    } else {
      AnchorIndex(order, key, anchor);
      var to := IndexOf(Lift(order, key), anchor);
      assert to == if from < a then a - 1 else a;
      MoveToInRange(order, key, to);
    }
  }

  lemma {:induction false} MoveChanges<K>(order: seq<K>, key: K, to: nat)
    requires Distinct(order) && key in order && to < |order| && to != IndexOf(order, key)
    ensures to <= |Lift(order, key)| && Insert(Lift(order, key), to, key) != order
  {
    assert Insert(Lift(order, key), to, key)[to] == key;
    assert order[to] != key;
  }

  lemma {:induction false} MoveToInRange<K>(order: seq<K>, key: K, to: nat)
    requires Distinct(order) && key in order && to < |order|
    ensures to <= |Lift(order, key)| && MoveTo(order, key, to) == Insert(Lift(order, key), to, key)
  {
  }

  class KeyedOrder<K(==), H(==)> {
    var entries: map<K, H>
    var order: seq<K>

    /** Entries and order stay in lockstep. */
    ghost predicate Valid()
      reads this
    {
      Distinct(order) && entries.Keys == Elements(order)
    }

    constructor ()
      ensures Valid() && order == [] && entries == map[]
    {
      entries, order := map[], [];
    }

    method Position(key: K) returns (pos: Option<nat>)
      requires Valid()
      ensures pos == if key in order then Some(IndexOf(order, key)) else None
    {
      if key in order {
        pos := Some(IndexOf(order, key));
      } else {
        pos := None;
      }
    }

    /** A warm key keeps its handle. */
    method Add(key: K, handle: H) returns (kept: H, what: MapMutation)
      requires Valid()
      modifies this
      ensures Valid()
      ensures key in old(entries) ==> entries == old(entries) && order == old(order)
      ensures key in old(entries) ==> kept == old(entries)[key] && what == NoMutation
      ensures key !in old(entries) ==> entries == old(entries)[key := handle] && order == old(order) + [key]
      ensures key !in old(entries) ==> kept == handle && what == Inserted
    {
      if key in entries {
        return entries[key], NoMutation;
      }
      assert key !in order;
      entries := entries[key := handle];
      order := order + [key];
      return handle, Inserted;
    }

    method Remove(key: K) returns (handle: Option<H>, what: MapMutation)
      requires Valid()
      modifies this
      ensures Valid()
      ensures entries == old(entries) - {key}
      ensures key in old(order) ==>
                order == Lift(old(order), key) && handle == Some(old(entries)[key]) && what == Removed
      ensures key !in old(order) ==> order == old(order) && handle == None && what == NoMutation
    {
      if key !in entries {
        return None, NoMutation;
      }
      assert key in order;
      LiftDistinct(order, key);
      handle := Some(entries[key]);
      entries := entries - {key};
      order := Lift(order, key);
      what := Removed;
    }

    method MoveKeyTo(key: K, index: int) returns (what: MapMove)
      requires Valid()
      modifies this`order
      ensures Valid() && order == MoveTo(old(order), key, index)
      ensures what.Missing? <==> key !in old(order)
      ensures what.Reordered? <==> order != old(order)
    {
      var from := Position(key);
      if from.None? {
        return Missing;
      }
      MoveKeepsKeys(order, key, index);
      var to := if index < |order| - 1 then index else |order| - 1;
      to := if to > 0 then to else 0;
      if from.value == to {
        LiftDistinct(order, key);
        return Unchanged;
      }
      MoveChanges(order, key, to);
      order := Lift(order, key);
      order := Insert(order, to, key);
      what := Reordered;
    }

    method MoveKeyBefore(key: K, anchor: K) returns (what: MapMove)
      requires Valid()
      modifies this`order
      ensures Valid() && order == MoveBefore(old(order), key, anchor)
      ensures what.Missing? <==> key !in old(order) || anchor !in old(order)
    {
      hide IndexOf, Insert, Cut;
      var a := Position(anchor);
      var from := Position(key);
      if a.None? || from.None? {
        return Missing;
      }
      BeforeSlot(order, key, anchor);
      what := MoveKeyTo(key, if from.value < a.value then a.value - 1 else a.value);
    }

    method MoveKeyAfter(key: K, anchor: K) returns (what: MapMove)
      requires Valid()
      modifies this`order
      ensures Valid() && order == MoveAfter(old(order), key, anchor)
      ensures what.Missing? <==> key !in old(order) || anchor !in old(order)
    {
      hide IndexOf, Insert, Cut;
      var a := Position(anchor);
      var from := Position(key);
      if a.None? || from.None? {
        return Missing;
      }
      AfterSlot(order, key, anchor);
      what := MoveKeyTo(key, if from.value <= a.value then a.value else a.value + 1);
    }
  }
}
