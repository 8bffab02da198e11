/** The admission core as the program runs it: scope records updated in place. */
module IngressCores {
  import opened Wrappers
  import opened Ingress

  class ScopeRecord<T> {
    var lifecycle: Lifecycle
    var generation: int
    var deliveredThrough: Option<nat>
    var stampedAt: int
    var pending: map<int, Held<T>>
    /** Absent means an empty window. */
    var window: Option<T>
    var windowDepth: nat
    var errors: nat
    ghost var accepted: map<int, T>
    ghost var delivered: seq<Item<T>>
    ghost var folded: seq<T>
    ghost var drains: seq<seq<T>>

    ghost function Value(): Scope<T>
      reads this
    {
      Scope(lifecycle, generation, deliveredThrough, stampedAt, pending, window, windowDepth, errors,
            accepted, delivered, folded, drains)
    }

    constructor (generation: int)
      ensures Value() == NewScope(generation)
    {
      lifecycle, this.generation, deliveredThrough, stampedAt := Opening, generation, None, 0;
      pending, window, windowDepth, errors := map[], None, 0, 0;
      accepted, delivered, folded, drains := map[], [], [], [];
    }

    method ClearWindow()
      modifies this
      ensures Value() == Cleared(old(Value()))
    {
      window, windowDepth, folded := None, 0, [];
    }

    /** The generation fence: the sequence space restarts. */
    method Restart(g: int)
      modifies this
      ensures Value() == Restarted(old(Value()), g)
    {
      generation, deliveredThrough, pending := g, None, map[];
      accepted, delivered, drains := map[], [], [];
    }

    method Next() returns (n: nat)
      ensures n == NextExpected(Value())
    {
      n := if deliveredThrough.None? then 0 else deliveredThrough.value + 1;
    }

    /** `_merge_into` and the watermark. */
    method MergeInto(m: Merge<T>, sequence: nat, payload: T, stamp: int) returns (conflated: bool)
      modifies this
      ensures Value() == Delivered(m, old(Value()), Item(sequence, payload), stamp)
      ensures conflated == old(window.Some?)
    {
      conflated := window.Some?;
      window := Some(if window.Some? then m(window.value, payload) else payload);
      windowDepth := windowDepth + 1;
      if stamp > stampedAt {
        stampedAt := stamp;
      }
      deliveredThrough := Some(sequence);
      delivered, folded := delivered + [Item(sequence, payload)], folded + [payload];
    }

    /** The flush loop: deliver every buffered successor that is next in order. */
    method Flush(m: Merge<T>, ghost s: Scope<T>) returns (conflated: bool)
      requires Value() == s && deliveredThrough.Some? && window.Some? && windowDepth >= 1
      modifies this
      ensures Value() == Flushed(m, s) && deliveredThrough.Some? && windowDepth >= old(windowDepth)
      ensures (conflated <==> windowDepth > old(windowDepth))
    {
      conflated := false;
      while true
        invariant Flushed(m, Value()) == Flushed(m, s) && window.Some? && deliveredThrough.Some?
        invariant windowDepth >= old(windowDepth) && (conflated <==> windowDepth > old(windowDepth))
        decreases |pending|
      {
        var n := Next();
        if n !in pending {
          return;
        }
        var held := pending[n];
        pending := pending - {n};
        var c := MergeInto(m, n, held.payload, held.stampedAt);
        conflated := c || conflated;
      }
    }

    /** The reorder and backpressure part of `_decide`. */
    method Order<K>(p: Policy, m: Merge<T>, e: Envelope<K, T>, handoff: Option<(int, int)>, ghost s: Scope<T>)
        returns (d: Decision)
      requires Value() == s && (window.Some? <==> windowDepth > 0)
      modifies this
      ensures Value() == Ordered(p, m, s, e, handoff).0
      ensures d == Ordered(p, m, s, e, handoff).1
    {
      hide Flushed, Delivered;
      var expected := Next();
      if e.sequence < expected {
        return Refuse(DuplicateSequence);
      }
      if e.sequence > expected {
        if e.sequence in pending {
          return Refuse(DuplicateBuffered);
        }
        if |pending| >= p.reorderWindow {
          return Refuse(ReorderWindowOverflow);
        }
        pending := pending[e.sequence := Held(e.payload, e.stampedAt)];
        accepted := accepted[e.sequence := e.payload];
        return Buffered(expected);
      }
      if windowDepth >= p.highWater {
        if p.overflow == Block {
          return Blocked;
        }
        if p.overflow == DropNewest {
          return Refuse(Backpressure);
        }
        if p.overflow == DropOldest {
          ClearWindow();
        }
      }
      var conflated := TakeIn(m, e.sequence, e.payload, e.stampedAt);
      d := Admitted(deliveredThrough.value, conflated, handoff);
    }

    /** Merge the payload next in order, then flush; whether anything coalesced. */
    method TakeIn(m: Merge<T>, sequence: nat, payload: T, stamp: int) returns (conflated: bool)
      requires window.Some? <==> windowDepth > 0
      modifies this
      ensures Value() == Flushed(m, Delivered(m, old(Value()), Item(sequence, payload), stamp)
                                    .(lifecycle := Live, errors := 0, accepted := old(accepted)[sequence := payload]))
      ensures deliveredThrough.Some? && (conflated <==> windowDepth > 1)
    {
      hide Flushed;
      conflated := MergeInto(m, sequence, payload, stamp);
      lifecycle, errors := Live, 0;
      accepted := accepted[sequence := payload];
      var more := Flush(m, Value());
      conflated := more || conflated;
    }

    /** `_decide`. */
    method DecideOn<K>(p: Policy, m: Merge<T>, now: int, e: Envelope<K, T>, ghost s: Scope<T>) returns (d: Decision)
      requires Value() == s && (window.Some? <==> windowDepth > 0)
      modifies this
      ensures Value() == Decide(p, m, now, s, e).0 && d == Decide(p, m, now, s, e).1
    {
      hide Ordered;
      if lifecycle == Closed {
        return Refuse(ScopeClosed);
      }
      if e.generation < generation {
        return Refuse(StaleGeneration);
      }
      if Max(0, now - e.stampedAt) > p.freshnessHorizon {
        return Refuse(Expired);
      }
      var handoff := None;
      if e.generation > generation {
        handoff := Some((generation, e.generation));
        Restart(e.generation);
        ClearWindow();
      }
      d := Order(p, m, e, handoff, Value());
    }

    /** `open` on a scope that is not closed. */
    method Reopen(g: int)
      requires lifecycle != Closed
      modifies this
      ensures Value() == Opened(old(Value()), g)
    {
      lifecycle := if deliveredThrough.Some? then Live else Opening;
      if g > generation {
        Restart(g);
      }
    }

    method Suspend() returns (from: Option<(int, nat)>)
      modifies this
      ensures Value() == SuspendedScope(old(Value()))
      ensures from == if old(lifecycle) != Suspended && old(lifecycle) != Closed
                      then Some((old(generation), NextExpected(old(Value())))) else None
    {
      if lifecycle == Suspended || lifecycle == Closed {
        return None;
      }
      lifecycle := Suspended;
      var n := Next();
      from := Some((generation, n));
    }

    method Reconnect(g: int) returns (from: (int, nat))
      modifies this
      ensures Value() == Reconnected(old(Value()), g) && from == (generation, NextExpected(Value()))
    {
      if g > generation {
        Restart(g);
        ClearWindow();
      }
      lifecycle := if deliveredThrough.Some? then Live else Opening;
      errors := 0;
      var n := Next();
      from := (generation, n);
    }

    method Close()
      modifies this
      ensures Value() == ClosedScope(old(Value()))
    {
      if lifecycle == Closed {
        return;
      }
      accepted := map n | n in accepted && n < NextExpected(Value()) :: accepted[n];
      lifecycle, pending, errors := Closed, map[], 0;
      ClearWindow();
    }

    method Drain() returns (value: Option<T>)
      modifies this
      ensures Value() == Drained(old(Value())) && value == old(window)
    {
      value := window;
      if window.Some? {
        drains := drains + [folded];
        ClearWindow();
      }
    }

    method Fail()
      modifies this
      ensures Value() == old(Value()).(errors := old(errors) + 1)
    {
      errors := errors + 1;
    }
  }

  class IngressCore<K(==), T> {
    const policy: Policy
    const merge: Merge<T>
    var observedNow: int
    var scopes: map<K, ScopeRecord<T>>
    /** Every record object in `scopes`. */
    ghost var records: set<ScopeRecord<T>>

    /** Each key has a record of its own, in the state `view` gives it. */
    ghost predicate Stored(view: map<K, Scope<T>>)
      reads this`scopes, this`records, records
    {
      && scopes.Keys == view.Keys
      && (forall k :: k in scopes ==> scopes[k] in records && scopes[k].Value() == view[k])
      && (forall j, k :: j in scopes && k in scopes && j != k ==> scopes[j] != scopes[k])
    }

    /** The core is in state `c`, and every scope of it is sound. */
    ghost predicate Is(c: Core<K, T>)
      reads this, records
    {
      Stored(c.scopes) && observedNow == c.now && AllSound(policy, merge, c)
    }

    constructor (policy: Policy, merge: Merge<T>)
      ensures Is(Core(map[], 0)) && this.policy == policy && this.merge == merge && fresh(records)
    {
      this.policy, this.merge := policy, merge;
      observedNow, scopes, records := 0, map[], {};
    }

    method Put(k: K, s: ScopeRecord<T>, ghost view: map<K, Scope<T>>)
      requires Stored(view) && s !in records
      modifies this`scopes, this`records
      ensures Stored(view[k := s.Value()]) && k in scopes && scopes[k] == s && records == old(records) + {s}
      ensures scopes == old(scopes)[k := s]
    {
      scopes, records := scopes[k := s], records + {s};
    }

    lemma {:induction false} StoredAt(view: map<K, Scope<T>>, k: K)
      requires Stored(view)
      ensures k in scopes <==> k in view
      ensures k in scopes ==> scopes[k] in records && scopes[k].Value() == view[k]
    {
    }

    /** The record of `k`, made at `generation` when there is none. */
    method Track(k: K, generation: int, ghost c: Core<K, T>) returns (created: bool, s: ScopeRecord<T>)
      requires Stored(c.scopes)
      modifies this`scopes, this`records
      ensures Stored(c.scopes[k := ScopeOr(c, k, generation)])
      ensures k in scopes && s == scopes[k] && created == (k !in c.scopes) && s.Value() == ScopeOr(c, k, generation)
      ensures fresh(records - old(records))
    {
      StoredAt(c.scopes, k);
      hide Stored;
      created := k !in scopes;
      if created {
        s := new ScopeRecord(generation);
        Put(k, s, c.scopes);
      } else {
        s := scopes[k];
        assert c.scopes == c.scopes[k := ScopeOr(c, k, generation)];
      }
    }

    /** `admit`. */
    method Admit(e: Envelope<K, T>, ghost c: Core<K, T>) returns (d: Decision)
      requires Is(c)
      modifies this, records
      ensures Is(Admitting(policy, merge, c, e).0) && d == Admitting(policy, merge, c, e).1
      ensures fresh(records - old(records))
    {
      hide Decide, AllSound, Stored;
      StepSound(policy, merge, c, Event.Admit(e));
      OccupiedIff(c, e.key, e.generation);
      var created, s := Track(e.key, e.generation, c);
      ghost var before := ScopeOr(c, e.key, e.generation);
      d := DecideAt(e, c.scopes[e.key := before], before);
      ghost var after := Decide(policy, merge, c.now, before, e).0;
      assert c.scopes[e.key := before][e.key := after] == c.scopes[e.key := after];
      if created && (d.Refuse? || d.Blocked?) {
        Forget(e.key, c.scopes[e.key := after]);
        assert c.scopes[e.key := after] - {e.key} == c.scopes;
      }
    }

    method DecideAt(e: Envelope<K, T>, ghost view: map<K, Scope<T>>, ghost s: Scope<T>) returns (d: Decision)
      requires Stored(view) && e.key in view && view[e.key] == s && (s.window.Some? <==> s.windowDepth > 0)
      modifies records
      ensures Stored(view[e.key := Decide(policy, merge, observedNow, s, e).0])
          && d == Decide(policy, merge, observedNow, s, e).1
    {
      StoredAt(view, e.key);
      d := scopes[e.key].DecideOn(policy, merge, observedNow, e, s);
    }

    method Forget(k: K, ghost view: map<K, Scope<T>>)
      requires Stored(view)
      modifies this`scopes
      ensures Stored(view - {k})
    {
      scopes := scopes - {k};
    }

    lemma {:induction false} OccupiedIff(c: Core<K, T>, k: K, g: int)
      requires AllSound(policy, merge, c)
      ensures ScopeOr(c, k, g).window.Some? <==> ScopeOr(c, k, g).windowDepth > 0
    {
      if k in c.scopes { assert Sound(policy, merge, c.scopes[k]); }
    }

    /** `open`. */
    method Open(k: K, generation: int, ghost c: Core<K, T>)
      requires Is(c)
      modifies this, records
      ensures Is(Step(policy, merge, c, Event.Open(k, generation))) && fresh(records - old(records))
    {
      hide AllSound, Restarted;
      StepSound(policy, merge, c, Event.Open(k, generation));
      StoredAt(c.scopes, k);
      if k !in scopes || scopes[k].lifecycle == Closed {
        hide Stored;
        var s := new ScopeRecord(generation);
        Put(k, s, c.scopes);
      } else {
        scopes[k].Reopen(generation);
      }
    }

    /** `suspend`: the replay request names the first sequence still missing. */
    method Suspend(k: K, ghost c: Core<K, T>) returns (from: Option<(int, nat)>)
      requires Is(c)
      modifies this, records
      ensures Is(Step(policy, merge, c, Event.Suspend(k))) && records == old(records)
      ensures from == if k in c.scopes && c.scopes[k].lifecycle != Suspended && c.scopes[k].lifecycle != Closed
                      then Some((c.scopes[k].generation, NextExpected(c.scopes[k]))) else None
    {
      hide AllSound, SuspendedScope;
      StepSound(policy, merge, c, Event.Suspend(k));
      StoredAt(c.scopes, k);
      if k !in scopes {
        return None;
      }
      from := scopes[k].Suspend();
    }

    /** `reconnect`. */
    method Reconnect(k: K, generation: int, ghost c: Core<K, T>) returns (from: (int, nat))
      requires Is(c)
      modifies this, records
      ensures Is(Step(policy, merge, c, Event.Reconnect(k, generation))) && fresh(records - old(records))
      ensures var r := Reconnected(ScopeOr(c, k, generation), generation); from == (r.generation, NextExpected(r))
    {
      hide AllSound, Reconnected, Stored;
      StepSound(policy, merge, c, Event.Reconnect(k, generation));
      var created, s := Track(k, generation, c);
      ghost var before := ScopeOr(c, k, generation);
      from := ReconnectAt(k, generation, c.scopes[k := before]);
      var after := Reconnected(before, generation);
      assert c.scopes[k := before][k := after] == c.scopes[k := after];
    }

    method ReconnectAt(k: K, generation: int, ghost view: map<K, Scope<T>>) returns (from: (int, nat))
      requires Stored(view) && k in view
      modifies records
      ensures Stored(view[k := Reconnected(view[k], generation)])
      ensures var r := Reconnected(view[k], generation); from == (r.generation, NextExpected(r))
    {
      hide Reconnected;
      StoredAt(view, k);
      from := scopes[k].Reconnect(generation);
    }

    /** `close`. */
    method Close(k: K, ghost c: Core<K, T>)
      requires Is(c)
      modifies this, records
      ensures Is(Step(policy, merge, c, Event.Close(k))) && records == old(records)
    {
      hide AllSound, ClosedScope;
      StepSound(policy, merge, c, Event.Close(k));
      StoredAt(c.scopes, k);
      if k in scopes {
        scopes[k].Close();
      }
    }

    /** `drain`: hand the merged window out and clear it. */
    method Drain(k: K, ghost c: Core<K, T>) returns (value: Option<T>)
      requires Is(c)
      modifies this, records
      ensures Is(Step(policy, merge, c, Event.Drain(k))) && records == old(records)
      ensures value == if k in c.scopes then Fold(merge, c.scopes[k].folded) else None
    {
      hide AllSound, Drained, Fold;
      StepSound(policy, merge, c, Event.Drain(k));
      StoredAt(c.scopes, k);
      if k !in scopes {
        return None;
      }
      WindowIs(c, k);
      value := scopes[k].Drain();
    }

    lemma {:induction false} WindowIs(c: Core<K, T>, k: K)
      requires AllSound(policy, merge, c) && k in c.scopes
      ensures c.scopes[k].window == Fold(merge, c.scopes[k].folded)
    {
    }

    /** `fail`. */
    method Fail(k: K, ghost c: Core<K, T>)
      requires Is(c)
      modifies this, records
      ensures Is(Step(policy, merge, c, Event.Fail(k))) && fresh(records - old(records))
    {
      hide AllSound, Stored;
      StepSound(policy, merge, c, Event.Fail(k));
      var created, s := Track(k, 0, c);
      ghost var before := ScopeOr(c, k, 0);
      FailAt(k, c.scopes[k := before]);
      assert c.scopes[k := before][k := before.(errors := before.errors + 1)]
          == c.scopes[k := before.(errors := before.errors + 1)];
    }

    method FailAt(k: K, ghost view: map<K, Scope<T>>)
      requires Stored(view) && k in view
      modifies records
      ensures Stored(view[k := view[k].(errors := view[k].errors + 1)])
    {
      StoredAt(view, k);
      scopes[k].Fail();
    }

    /** `tick`. */
    method Tick(now: int, ghost c: Core<K, T>)
      requires Is(c)
      modifies this`observedNow
      ensures Is(Step(policy, merge, c, Event.Tick(now))) && records == old(records)
    {
      hide Sound, Stored;
      observedNow := now;
    }
  }
}
