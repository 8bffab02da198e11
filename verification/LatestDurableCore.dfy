/** The projection authority as the program keeps it: entry records updated in place. */
module LatestDurableCores {
  import opened Wrappers
  import opened Sequences
  import opened LatestDurable

  class EntryRecord<K, V(==)> {
    var desired: Option<Revision<V>>
    var inflight: Option<Envelope<K, V>>
    var durableThrough: Option<nat>
    ghost var accepted: seq<Revision<V>>

    ghost function Value(): Entry<K, V>
      reads this
    {
      Entry(desired, inflight, durableThrough, accepted)
    }

    constructor ()
      ensures Value() == NewEntry()
    {
      desired, inflight, durableThrough, accepted := None, None, None, [];
    }

    method UpsertDesired(epoch: nat, value: V) returns (kind: UpsertKind)
      modifies this
      ensures (Value(), kind) == UpsertEntry(old(Value()), epoch, value)
    {
      if durableThrough.Some? && epoch <= durableThrough.value {
        return AlreadyDurable(durableThrough.value);
      }
      var newest := desired;
      if inflight.Some? && (desired.None? || desired.value.epoch < inflight.value.epoch) {
        newest := Some(Revision(inflight.value.epoch, inflight.value.value));
      }
      if newest.Some? {
        if epoch < newest.value.epoch {
          return StaleEpoch(newest.value.epoch);
        }
        if epoch == newest.value.epoch {
          return if value == newest.value.value then UpsertUnchanged else EpochConflict;
        }
      }
      desired := Some(Revision(epoch, value));
      accepted := accepted + [Revision(epoch, value)];
      return Accepted;
    }

    /** Take the in-flight attempt back; whether a newer desire superseded it. */
    method TakeBack() returns (superseded: bool)
      requires inflight.Some?
      modifies this
      ensures Value() == Returned(old(Value())) && superseded == SupersededBy(old(Value()))
    {
      var attempt := inflight.value;
      inflight := None;
      superseded := desired.Some? && desired.value.epoch > attempt.epoch;
      if !superseded {
        desired := Some(Revision(attempt.epoch, attempt.value));
      }
    }
  }

  class LatestDurableProjectionCore<K(==), V(==)> {
    var generation: nat
    var entries: map<K, EntryRecord<K, V>>
    /** The insertion order of `entries`. */
    var order: seq<K>
    ghost var records: set<EntryRecord<K, V>>

    /** Each key has a record of its own, in the state `view` gives it. */
    ghost predicate Stored(view: map<K, Entry<K, V>>)
      reads this`entries, this`records, records
    {
      && entries.Keys == view.Keys
      && (forall k :: k in entries ==> entries[k] in records && entries[k].Value() == view[k])
      && (forall j, k :: j in entries && k in entries && j != k ==> entries[j] != entries[k])
    }

    /** The core is in state `c`, and every entry of it is sound. */
    ghost predicate Is(c: Core<K, V>)
      reads this, records
    {
      Stored(c.entries) && generation == c.generation && order == c.order && Sound(c)
    }

    constructor (generation: nat)
      ensures Is(NewCore(generation)) && fresh(records)
    {
      this.generation, entries, order, records := generation, map[], [], {};
    }

    lemma {:induction false} StoredAt(view: map<K, Entry<K, V>>, k: K)
      requires Stored(view)
      ensures k in entries <==> k in view
      ensures k in entries ==> entries[k] in records && entries[k].Value() == view[k]
    {
    }

    /** The record of `k`, made when there is none. */
    method Track(k: K, ghost c: Core<K, V>)
      requires Stored(c.entries) && order == c.order
      modifies this`entries, this`order, this`records
      ensures Stored(Put(c, k, EntryOr(c, k)).entries) && order == Put(c, k, EntryOr(c, k)).order
      ensures fresh(records - old(records))
    {
      StoredAt(c.entries, k);
      if k in entries {
        assert c.entries[k := c.entries[k]] == c.entries;
      } else {
        var r := new EntryRecord();
        entries, order, records := entries[k := r], order + [k], records + {r};
      }
    }

    method UpsertAt(k: K, epoch: nat, value: V, ghost view: map<K, Entry<K, V>>) returns (kind: UpsertKind)
      requires Stored(view) && k in view
      modifies records
      ensures Stored(view[k := UpsertEntry(view[k], epoch, value).0]) && kind == UpsertEntry(view[k], epoch, value).1
    {
      hide UpsertEntry;
      StoredAt(view, k);
      kind := entries[k].UpsertDesired(epoch, value);
    }

    /** `upsert_desired`. */
    method UpsertDesired(k: K, epoch: nat, value: V, ghost c: Core<K, V>) returns (changed: bool, kind: UpsertKind)
      requires Is(c)
      modifies this, records
      ensures Is(Upsert(c, k, epoch, value).0) && kind == Upsert(c, k, epoch, value).1
      ensures changed == Changed(c, EUpsert(k, epoch, value)) && fresh(records - old(records))
    {
      hide Stored, Sound, UpsertEntry;
      StepSound(c, EUpsert(k, epoch, value));
      Track(k, c);
      ghost var before := EntryOr(c, k);
      kind := UpsertAt(k, epoch, value, Put(c, k, before).entries);
      ghost var after := UpsertEntry(before, epoch, value).0;
      assert Put(c, k, before).entries[k := after] == Put(c, k, after).entries;
      changed := kind.Accepted?;
    }

    /** `claim`. */
    method ClaimLatest(k: K, g: nat, ghost c: Core<K, V>) returns (changed: bool, kind: ClaimKind<K, V>)
      requires Is(c)
      modifies this, records
      ensures Is(Claim(c, k, g).0) && kind == Claim(c, k, g).1
      ensures changed == Changed(c, EClaim(k, g)) && records == old(records)
    {
      hide Sound;
      StepSound(c, EClaim(k, g));
      StoredAt(c.entries, k);
      if g != generation {
        return false, ClaimStale(generation);
      }
      if k !in entries {
        return false, ClaimEmpty;
      }
      var e := entries[k];
      if e.inflight.Some? {
        return false, Busy;
      }
      if e.desired.None? {
        return false, ClaimEmpty;
      }
      var v := Envelope(g, k, e.desired.value.epoch, e.desired.value.value);
      e.desired, e.inflight := None, Some(v);
      return true, Claimed(v);
    }

    /** `ack_applied`. */
    method AckApplied(k: K, g: nat, epoch: nat, ghost c: Core<K, V>) returns (changed: bool, kind: AckKind)
      requires Is(c)
      modifies this, records
      ensures Is(Ack(c, k, g, epoch).0) && kind == Ack(c, k, g, epoch).1
      ensures changed == Changed(c, EAck(k, g, epoch)) && records == old(records)
    {
      hide Sound;
      StepSound(c, EAck(k, g, epoch));
      StoredAt(c.entries, k);
      if g != generation {
        return false, AckStale(generation);
      }
      if k !in entries {
        return false, AckUnknown;
      }
      var e := entries[k];
      if e.inflight.None? || e.inflight.value.epoch != epoch {
        return false, if e.durableThrough.Some? && epoch <= e.durableThrough.value
            then AckUnchanged(e.durableThrough.value) else AckUnknown;
      }
      var previous := e.durableThrough;
      var durable := if previous.Some? && previous.value > epoch then previous.value else epoch;
      e.inflight, e.durableThrough := None, Some(durable);
      return true, if previous.Some? && previous.value >= epoch then AckUnchanged(durable) else Advanced(durable);
    }

    /** `fail_retryable`. */
    method FailRetryable(k: K, g: nat, epoch: nat, ghost c: Core<K, V>) returns (changed: bool, kind: FailureKind)
      requires Is(c)
      modifies this, records
      ensures Is(Fail(c, k, g, epoch).0) && kind == Fail(c, k, g, epoch).1
      ensures changed == Changed(c, EFail(k, g, epoch)) && records == old(records)
    {
      hide Sound, Returned, SupersededBy;
      StepSound(c, EFail(k, g, epoch));
      StoredAt(c.entries, k);
      if g != generation {
        return false, FailStale(generation);
      }
      if k !in entries || entries[k].inflight.None? || entries[k].inflight.value.epoch != epoch {
        return false, FailUnknown;
      }
      var superseded := entries[k].TakeBack();
      return true, if superseded then Superseded else Pending;
    }

    /** `reconnect`: fence the old generation and take every attempt in flight back. */
    method ReconnectSink(g: nat, ghost c: Core<K, V>) returns (changed: bool, kind: ReconnectKind)
      requires Is(c)
      modifies this, records
      ensures Is(Reconnect(c, g).0) && kind == Reconnect(c, g).1
      ensures changed == Changed(c, EReconnect(g)) && records == old(records)
    {
      hide Sound, Stored, Returned, SupersededBy;
      StepSound(c, EReconnect(g));
      if g < generation {
        return false, ReconnectStale(generation);
      }
      if g == generation {
        return false, SameGeneration(generation);
      }
      generation := g;
      var requeued, superseded := TakeAllBack(c);
      return true, Reconnected(g, requeued, superseded);
    }

    /** One round of the loop of `reconnect`. */
    method TakeBackAt(k: K, ghost view: map<K, Entry<K, V>>) returns (taken: bool, superseded: bool)
      requires Stored(view) && k in view
      modifies records
      ensures Stored(view[k := Returned(view[k])]) && taken == view[k].inflight.Some?
      ensures superseded == SupersededBy(view[k])
    {
      hide Returned;
      StoredAt(view, k);
      taken, superseded := entries[k].inflight.Some?, false;
      if taken {
        superseded := entries[k].TakeBack();
      } else {
        assert Returned(view[k]) == view[k] by { NothingReturned(view[k]); }
        assert view[k := view[k]] == view;
      }
    }

    lemma {:induction false} NothingReturned(e: Entry<K, V>)
      requires e.inflight.None?
      ensures Returned(e) == e
    {
    }

    /** The loop of `reconnect` over the entries in insertion order. */
    method TakeAllBack(ghost c: Core<K, V>) returns (requeued: nat, superseded: nat)
      requires Stored(c.entries) && order == c.order && Sound(c)
      modifies records
      ensures Stored(map k | k in c.entries :: Returned(c.entries[k]))
      ensures requeued == |set k | k in c.entries && c.entries[k].inflight.Some? && !SupersededBy(c.entries[k])|
      ensures superseded == |set k | k in c.entries && SupersededBy(c.entries[k])|
    {
      hide SoundEntry, Stored, Returned, SupersededBy, Requeued, Behind, Partly;
      requeued, superseded := 0, 0;
      ghost var done: set<K> := {};
      NoneTaken(c.entries);
      for i := 0 to |order|
        invariant done == Elements(order[..i]) && done <= c.entries.Keys && order == c.order
        invariant Stored(Partly(c.entries, done))
        invariant requeued == |Requeued(c.entries, done)| && superseded == |Behind(c.entries, done)|
      {
        var k := order[i];
        assert order[..i + 1] == order[..i] + [k];
        assert k in Elements(c.order) && k !in order[..i];
        ghost var view := Partly(c.entries, done);
        PartlyStep(c.entries, done, k);
        var taken, behind := TakeBackAt(k, view);
        CountsGrow(c.entries, done, k);
        done := done + {k};
        if behind {
          superseded := superseded + 1;
        } else if taken {
          requeued := requeued + 1;
        }
      }
      assert order[..|order|] == order;
      AllTaken(c.entries);
    }
  }

  /** The entries with those of some keys already taken back. */
  function Partly<K, V>(entries: map<K, Entry<K, V>>, done: set<K>): map<K, Entry<K, V>> {
    map k | k in entries :: if k in done then Returned(entries[k]) else entries[k]
  }

  function Requeued<K, V>(entries: map<K, Entry<K, V>>, done: set<K>): set<K> {
    set k | k in done && k in entries && entries[k].inflight.Some? && !SupersededBy(entries[k])
  }

  function Behind<K, V>(entries: map<K, Entry<K, V>>, done: set<K>): set<K> {
    set k | k in done && k in entries && SupersededBy(entries[k])
  }

  lemma {:induction false} NoneTaken<K, V>(entries: map<K, Entry<K, V>>)
    ensures Partly(entries, {}) == entries && Requeued(entries, {}) == {} && Behind(entries, {}) == {}
  {
  }

  lemma {:induction false} AllTaken<K, V>(entries: map<K, Entry<K, V>>)
    ensures Partly(entries, entries.Keys) == map k | k in entries :: Returned(entries[k])
    ensures Requeued(entries, entries.Keys)
            == set k | k in entries && entries[k].inflight.Some? && !SupersededBy(entries[k])
    ensures Behind(entries, entries.Keys) == set k | k in entries && SupersededBy(entries[k])
  {
    hide Returned, SupersededBy;
  }

  lemma {:induction false} PartlyStep<K, V>(entries: map<K, Entry<K, V>>, done: set<K>, k: K)
    requires k in entries && k !in done
    ensures k in Partly(entries, done) && Partly(entries, done)[k] == entries[k]
    ensures Partly(entries, done + {k}) == Partly(entries, done)[k := Returned(entries[k])]
  {
    hide Returned;
  }

  lemma {:induction false} CountsGrow<K, V>(entries: map<K, Entry<K, V>>, done: set<K>, k: K)
    requires k in entries && k !in done
    ensures |Requeued(entries, done + {k})| == |Requeued(entries, done)| + if entries[k].inflight.Some?
        && !SupersededBy(entries[k]) then 1 else 0
    ensures |Behind(entries, done + {k})| == |Behind(entries, done)| + if SupersededBy(entries[k]) then 1 else 0
  {
    RequeuedGrows(entries, done, k);
    BehindGrows(entries, done, k);
    assert k !in Requeued(entries, done) && k !in Behind(entries, done);
    hide Requeued, Behind, SupersededBy;
    assert |Requeued(entries, done) + {k}| == |Requeued(entries, done)| + 1;
    assert |Behind(entries, done) + {k}| == |Behind(entries, done)| + 1;
  }

  lemma {:induction false} RequeuedGrows<K, V>(entries: map<K, Entry<K, V>>, done: set<K>, k: K)
    requires k in entries && k !in done
    ensures Requeued(entries, done + {k}) == if entries[k].inflight.Some? && !SupersededBy(entries[k])
        then Requeued(entries, done) + {k} else Requeued(entries, done)
  {
    hide SupersededBy;
  }

  lemma {:induction false} BehindGrows<K, V>(entries: map<K, Entry<K, V>>, done: set<K>, k: K)
    requires k in entries && k !in done
    ensures Behind(entries, done + {k}) == if SupersededBy(entries[k]) then Behind(entries, done) + {k}
        else Behind(entries, done)
  {
    hide SupersededBy;
  }
}
