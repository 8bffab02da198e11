/** The plane as the program keeps it: a list of winners with an index into it. */
module CrdtPlaneRuntimes {
  import opened Wrappers
  import opened CrdtPlane

  /** The index gives the position of each slot's only winner. */
  ghost predicate Indexed(entries: seq<Entry>, index: map<Slot, nat>) {
    && OneEach(entries)
    && (forall i :: 0 <= i < |entries| ==> SlotOf(entries[i]) in index && index[SlotOf(entries[i])] == i)
    && (forall slot :: slot in index ==> index[slot] < |entries| && SlotOf(entries[index[slot]]) == slot)
  }

  lemma {:induction false} IndexedAt(entries: seq<Entry>, index: map<Slot, nat>, slot: Slot)
    requires Indexed(entries, index)
    ensures Find(entries, slot) == if slot in index then Some(index[slot]) else None
  {
    var r := Find(entries, slot);
    if r.Some? { assert SlotOf(entries[r.value]) == slot; }
  }

  /** Putting an entry keeps the index right; a new slot is entered at the end. */
  lemma {:induction false} IndexedPut(entries: seq<Entry>, index: map<Slot, nat>, e: Entry)
    requires Indexed(entries, index)
    ensures Indexed(Put(entries, e), if SlotOf(e) in index then index else index[SlotOf(e) := |entries|])
  {
    IndexedAt(entries, index, SlotOf(e));
    PutMembers(entries, e);
    hide Find;
  }

  class CrdtPlaneRuntime {
    var entries: seq<Entry>
    /** The position of each slot's winner in `entries`. */
    var byNodeKey: map<Slot, nat>
    var applied: set<(int, Stamp)>
    var frontier: map<int, Stamp>
    ghost var seen: set<Entry>

    ghost predicate Valid()
      reads this
    {
      Indexed(entries, byNodeKey)
    }

    ghost function View(): Plane
      reads this
    {
      Plane(entries, applied, frontier, seen)
    }

    constructor ()
      ensures Valid() && View() == EMPTY
    {
      entries, byNodeKey, applied, frontier, seen := [], map[], {}, map[], {};
    }

    /** `apply`: whether the op was new. */
    method ApplyOp(op: CrdtOp) returns (isNew: bool)
      requires Valid()
      modifies this
      ensures Valid() && View() == Apply(old(View()), op)
      ensures isNew <==> (op.node, op.stamp) !in old(applied)
    {
      if (op.node, op.stamp) in applied {
        return false;
      }
      applied := applied + {(op.node, op.stamp)};
      var producer := op.stamp.peer;
      if producer !in frontier || StampLess(frontier[producer], op.stamp) {
        frontier := frontier[producer := op.stamp];
      }
      PutEntry(EntryOf(op));
      seen := seen + {EntryOf(op)};
      return true;
    }

    method PutEntry(e: Entry)
      requires Valid()
      modifies this`entries, this`byNodeKey
      ensures Valid() && entries == Put(old(entries), e)
    {
      IndexedPut(entries, byNodeKey, e);
      IndexedAt(entries, byNodeKey, SlotOf(e));
      hide Indexed;
      if SlotOf(e) !in byNodeKey {
        byNodeKey := byNodeKey[SlotOf(e) := |entries|];
        entries := entries + [e];
      } else if StampLess(entries[byNodeKey[SlotOf(e)]].stamp, e.stamp) {
        entries := entries[byNodeKey[SlotOf(e)] := e];
      }
    }

    /** `apply_frame`: how many ops were new. */
    method ApplySync(frame: Frame) returns (count: nat)
      requires Valid()
      modifies this
      ensures Valid() && View() == ApplyFrame(old(View()), frame)
      ensures count == |applied| - |old(applied)|
    {
      hide Apply;
      count := 0;
      assert frame.ops[..0] == [];
      for i := 0 to |frame.ops|
        invariant Valid() && View() == ApplyAll(old(View()), frame.ops[..i])
        invariant count == |applied| - |old(applied)|
      {
        assert frame.ops[..i + 1][..i] == frame.ops[..i];
        ghost var before := applied;
        var isNew := ApplyOp(frame.ops[i]);
        assert applied == before + {(frame.ops[i].node, frame.ops[i].stamp)}
            by { AppliedGrows(ApplyAll(old(View()), frame.ops[..i]), frame.ops[i]); }
        if isNew {
          assert |applied| == |before| + 1;
          count := count + 1;
        } else {
          assert applied == before;
        }
      }
      assert frame.ops[..|frame.ops|] == frame.ops;
      MergeFrontier(frame.frontier);
    }

    lemma {:induction false} AppliedGrows(p: Plane, op: CrdtOp)
      ensures Apply(p, op).applied == p.applied + {(op.node, op.stamp)}
    {
    }

    method MergeFrontier(theirs: map<int, Stamp>)
      modifies this`frontier
      ensures frontier == MergedFrontier(old(frontier), theirs)
    {
      var rest := theirs.Keys;
      while rest != {}
        invariant rest <= theirs.Keys
        invariant frontier == MergedFrontier(old(frontier), theirs - rest)
        decreases rest
      {
        assert (forall p :: p !in rest) ==> rest == {};
        var p :| p in rest;
        if p !in frontier || StampLess(frontier[p], theirs[p]) {
          frontier := frontier[p := theirs[p]];
        }
        rest := rest - {p};
      }
      assert theirs - {} == theirs;
    }

    /** `stability_watermark`. */
    method StabilityWatermark() returns (w: Option<Stamp>)
      ensures w.None? <==> frontier == map[]
      ensures w.Some? ==> IsWatermark(frontier, w.value)
    {
      w := None;
      var rest := frontier.Keys;
      while rest != {}
        invariant rest <= frontier.Keys && (w.None? <==> rest == frontier.Keys)
        invariant w.Some? ==> exists p :: p in frontier && frontier[p] == w.value
        invariant w.Some? ==> forall p :: p in frontier && p !in rest ==> !StampLess(frontier[p], w.value)
        decreases rest
      {
        assert (forall p :: p !in rest) ==> rest == {};
        var p :| p in rest;
        if w.None? || StampLess(frontier[p], w.value) {
          w := Some(frontier[p]);
        }
        rest := rest - {p};
      }
      assert frontier.Keys == {} ==> frontier == map[];
    }

    /** `delta_sync`. */
    method DeltaSync(their: map<int, Stamp>) returns (frame: Frame)
      ensures frame == Delta(View(), their)
    {
      var ops: seq<CrdtOp> := [];
      assert entries[..0] == [];
      for i := 0 to |entries|
        invariant ops == Lacked(entries[..i], their)
      {
        var e := entries[i];
        assert entries[..i + 1][..i] == entries[..i];
        if StampLess(if e.stamp.peer in their then their[e.stamp.peer] else NO_STAMP, e.stamp) {
          ops := ops + [CrdtOp(e.node, e.key, e.stamp, Inline(e.state))];
        } else {
          assert ops + [] == ops;
        }
      }
      assert entries[..|entries|] == entries;
      frame := Frame(frontier, ops);
    }

    /** `to_sync`. */
    method ToSync() returns (frame: Frame)
      ensures frame == Full(View())
    {
      frame := Frame(frontier, seq(|entries|, i requires 0 <= i < |entries| reads this => OpOf(entries[i])));
    }
  }
}
