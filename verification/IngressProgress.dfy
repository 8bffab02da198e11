/** What admission owes to the envelopes it is offered: when it takes them, why it refuses
    them, and that whatever the reorder window can hold is delivered. */
module IngressProgress {
  import opened Wrappers
  import opened Ingress

  /** Stamped within the freshness horizon. */
  predicate Fresh<K, T>(p: Policy, now: int, e: Envelope<K, T>) {
    0 <= p.freshnessHorizon && now - e.stampedAt <= p.freshnessHorizon
  }

  predicate Full<T>(p: Policy, s: Scope<T>) {
    s.windowDepth >= p.highWater
  }

  /** The first sequence that was not accepted. */
  predicate FirstMissing(accepted: set<int>, n: nat) {
    n !in accepted && forall i :: 0 <= i < n ==> i in accepted
  }

  /** What lies beyond a gap and has to wait in the reorder buffer. */
  ghost function BeyondGap(accepted: set<int>): set<int> {
    set n | n in accepted && exists i :: 0 <= i < n && i !in accepted
  }

  // ----- one envelope -----

  lemma {:induction false} ExpectedIsMissing<T>(p: Policy, m: Merge<T>, s: Scope<T>)
    requires Sound(p, m, s)
    ensures FirstMissing(s.accepted.Keys, NextExpected(s)) && BeyondGap(s.accepted.Keys) == s.pending.Keys
    ensures forall n :: n in s.accepted ==> n >= 0
  {
    var next := NextExpected(s);
    hide Windowed;
    forall i | 0 <= i < next ensures i in s.accepted {
      assert s.delivered[i].sequence == i;
    }
    hide InOrder;
    assert next !in s.accepted.Keys;
    assert forall n :: n in BeyondGap(s.accepted.Keys) ==> n > next;
  }

  /** Three fences stand before the sequence, in this order: lifecycle, generation, freshness. */
  lemma {:induction false} FencedIff<K, T>(p: Policy, m: Merge<T>, now: int, s: Scope<T>, e: Envelope<K, T>)
    ensures var d := Decide(p, m, now, s, e).1;
            && (d == Refuse(ScopeClosed) <==> s.lifecycle == Closed)
            && (d == Refuse(StaleGeneration) <==> s.lifecycle != Closed && e.generation < s.generation)
            && (d == Refuse(Expired) <==> s.lifecycle != Closed && e.generation >= s.generation && !Fresh(p, now, e))
            && (d == Refuse(ScopeClosed) || d == Refuse(StaleGeneration) || d == Refuse(Expired) ==>
                  Decide(p, m, now, s, e).0 == s)
  {
  }

  /** Within the fences an envelope behind a gap is buffered exactly when it was not accepted
      before and the reorder window has room for one more; the answer names the gap. It is
      refused as a duplicate exactly when it was accepted before, and an envelope in order is
      turned away only by a full window whose policy says so. */
  lemma {:induction false} OrderedIff<K, T>(p: Policy, m: Merge<T>, now: int, s: Scope<T>, e: Envelope<K, T>)
    requires Sound(p, m, s) && s.lifecycle != Closed && e.generation == s.generation && Fresh(p, now, e)
    requires e.sequence >= 0
    ensures var d := Decide(p, m, now, s, e).1; var seen := s.accepted.Keys;
            var inOrder := FirstMissing(seen, e.sequence);
            && (d == Refuse(DuplicateSequence) || d == Refuse(DuplicateBuffered) <==> e.sequence in seen)
            && (d == Refuse(DuplicateBuffered) <==> e.sequence in BeyondGap(seen))
            && (d.Buffered? <==> e.sequence !in seen && !inOrder && |BeyondGap(seen)| < p.reorderWindow)
            && (d.Buffered? ==> FirstMissing(seen, d.gapFrom))
            && (d == Refuse(ReorderWindowOverflow) <==>
                  e.sequence !in seen && !inOrder && |BeyondGap(seen)| >= p.reorderWindow)
            && (d.Blocked? <==> inOrder && Full(p, s) && p.overflow == Block)
            && (d == Refuse(Backpressure) <==> inOrder && Full(p, s) && p.overflow == DropNewest)
            && (d.Admitted? <==> inOrder && !(Full(p, s) && (p.overflow == Block || p.overflow == DropNewest)))
  {
    ExpectedIsMissing(p, m, s);
    hide Sound, Flushed, BeyondGap;
  }

  /** What taking an envelope in does to the accepted sequences, and what it leaves alone. */
  lemma {:induction false} TakenIn<K, T>(p: Policy, m: Merge<T>, now: int, s: Scope<T>, e: Envelope<K, T>)
    requires Sound(p, m, s) && s.lifecycle != Closed && e.generation == s.generation && Fresh(p, now, e)
    ensures var r := Decide(p, m, now, s, e);
            && r.0.generation == s.generation && r.0.lifecycle != Closed
            && (r.1.Buffered? || r.1.Admitted? ==> r.0.accepted == s.accepted[e.sequence := e.payload])
            && (r.1.Refuse? || r.1.Blocked? ==> r.0 == s)
  {
    hide Ordered, Sound;
    OrderedTakes(p, m, s, e, None);
  }

  lemma {:induction false} OrderedTakes<K, T>(p: Policy, m: Merge<T>, s: Scope<T>, e: Envelope<K, T>,
      handoff: Option<(int, int)>)
    requires s.lifecycle != Closed
    ensures var r := Ordered(p, m, s, e, handoff);
            && r.0.generation == s.generation && r.0.lifecycle != Closed
            && (r.1.Buffered? || r.1.Admitted? ==> r.0.accepted == s.accepted[e.sequence := e.payload])
            && (r.1.Refuse? || r.1.Blocked? ==> r.0 == s)
            && (r.1.Admitted? ==> r.0.lifecycle == Live && r.0.errors == 0)
  {
    if e.sequence == NextExpected(s) {
      var room := if Full(p, s) && p.overflow == DropOldest then Cleared(s) else s;
      FlushedKeeps(m, Delivered(m, room, Item(e.sequence, e.payload), e.stampedAt)
                      .(lifecycle := Live, errors := 0, accepted := s.accepted[e.sequence := e.payload]));
    }
    hide Flushed;
  }

  lemma {:induction false} FlushedKeeps<T>(m: Merge<T>, s: Scope<T>)
    ensures var r := Flushed(m, s);
            r.generation == s.generation && r.lifecycle == s.lifecycle && r.accepted == s.accepted
            && r.errors == s.errors
    decreases |s.pending|
  {
    var n := NextExpected(s);
    if n in s.pending {
      FlushedKeeps(m, Delivered(m, s.(pending := s.pending - {n}), Item(n, s.pending[n].payload),
          s.pending[n].stampedAt));
    }
  }

  /** The answer to a delivery: the watermark afterwards, whether the payload met another one
      in the window or brought buffered ones along, and the fence it raised, if any. */
  lemma {:induction false} AdmittedSays<K, T>(p: Policy, m: Merge<T>, now: int, s: Scope<T>, e: Envelope<K, T>)
    requires Sound(p, m, s) && Decide(p, m, now, s, e).1.Admitted?
    ensures var r := Decide(p, m, now, s, e); var base := if e.generation > s.generation then NewScope<T>(0) else s;
            && r.0.deliveredThrough == Some(r.1.deliveredThrough)
            && r.1.handoff == (if e.generation > s.generation then Some((s.generation, e.generation)) else None)
            && (r.1.conflated <==>
                  (base.window.Some? && !(Full(p, base) && p.overflow == DropOldest))
                  || NextExpected(base) + 1 in base.pending)
            && r.0.lifecycle == Live && r.0.errors == 0
  {
    var base := if e.generation > s.generation then Handoff(s, e.generation) else s;
    WindowStarts(m);
    WindowEmpty(m, s.window, s.windowDepth, s.folded);
    hide InOrder, Waiting, Ordered, Windowed;
    var handoff := if e.generation > s.generation then Some((s.generation, e.generation)) else None;
    OrderedTakes(p, m, base, e, handoff);
    OrderedSays(p, m, base, e, handoff);
  }

  lemma {:induction false} OrderedSays<K, T>(p: Policy, m: Merge<T>, s: Scope<T>, e: Envelope<K, T>,
      handoff: Option<(int, int)>)
    requires Ordered(p, m, s, e, handoff).1.Admitted? && (s.window.Some? <==> s.windowDepth > 0)
    ensures var r := Ordered(p, m, s, e, handoff);
            && r.0.deliveredThrough == Some(r.1.deliveredThrough) && r.1.handoff == handoff
            && (r.1.conflated <==>
                  (s.window.Some? && !(Full(p, s) && p.overflow == DropOldest)) || NextExpected(s) + 1 in s.pending)
  {
    hide Flushed;
    assert e.sequence == NextExpected(s);
    var room := if Full(p, s) && p.overflow == DropOldest then Cleared(s) else s;
    var first := Delivered(m, room, Item(e.sequence, e.payload), e.stampedAt)
                 .(lifecycle := Live, errors := 0, accepted := s.accepted[e.sequence := e.payload]);
    var r := Ordered(p, m, s, e, handoff);
    assert r.0 == Flushed(m, first) && r.1 == Admitted(NextExpected(r.0) - 1, r.0.windowDepth > 1, handoff);
    hide Ordered;
    assert first.windowDepth == room.windowDepth + 1 && first.pending == s.pending;
    assert NextExpected(first) == NextExpected(s) + 1;
    hide Delivered;
    FlushedDeepens(m, first);
  }

  lemma {:induction false} FlushedDeepens<T>(m: Merge<T>, s: Scope<T>)
    ensures var r := Flushed(m, s);
            r.windowDepth >= s.windowDepth && (r.windowDepth > s.windowDepth <==> NextExpected(s) in s.pending)
    decreases |s.pending|
  {
    var n := NextExpected(s);
    if n in s.pending {
      FlushedDeepens(m, Delivered(m, s.(pending := s.pending - {n}), Item(n, s.pending[n].payload),
          s.pending[n].stampedAt));
    }
  }

  /** An envelope of a higher generation is decided as if nothing had come before it. */
  lemma {:induction false} HandoffStartsOver<K, T>(p: Policy, m: Merge<T>, now: int, s: Scope<T>, e: Envelope<K, T>)
    requires s.lifecycle != Closed && e.generation > s.generation
    ensures var r, n := Decide(p, m, now, s, e), Decide(p, m, now, NewScope(e.generation), e);
            && (r.1.Admitted? ==>
                  n.1 == r.1.(handoff := None) && r.0 == n.0.(stampedAt := r.0.stampedAt))
            && (!r.1.Admitted? ==> n.1 == r.1)
  {
  }

  // ----- a schedule -----

  /** Offers to one scope, in its generation and fresh. */
  ghost predicate Offering<K, T>(p: Policy, now: int, es: seq<Event<K, T>>, k: K, g: int) {
    forall i :: 0 <= i < |es| ==>
      && es[i].Admit? && es[i].envelope.key == k && es[i].envelope.generation == g && es[i].envelope.sequence >= 0
      && Fresh(p, now, es[i].envelope)
  }

  function Sequences<K, T>(es: seq<Event<K, T>>): set<int>
    requires forall i :: 0 <= i < |es| ==> es[i].Admit?
  {
    set i | 0 <= i < |es| :: es[i].envelope.sequence
  }

  /** What waits beyond a gap fits the reorder window after every offer. */
  ghost predicate Holdable<K, T>(p: Policy, seen: set<int>, es: seq<Event<K, T>>)
    requires forall i :: 0 <= i < |es| ==> es[i].Admit?
  {
    forall j :: 0 <= j <= |es| ==> |BeyondGap(seen + Sequences(es[..j]))| <= p.reorderWindow
  }

  /** One offer is accepted by then exactly when what would wait afterwards fits. */
  lemma {:induction false} OfferAcceptedIff<K, T>(p: Policy, m: Merge<T>, c: Core<K, T>, e: Envelope<K, T>)
    requires p.overflow != Block && p.overflow != DropNewest
    requires AllSound(p, m, c) && e.sequence >= 0 && Fresh(p, c.now, e)
    requires var s := ScopeOr(c, e.key, e.generation); s.lifecycle != Closed && s.generation == e.generation
    ensures var s, t := ScopeOr(c, e.key, e.generation), ScopeOr(Step(p, m, c, Admit(e)), e.key, e.generation);
            var all := s.accepted.Keys + {e.sequence};
            && t.lifecycle != Closed && t.generation == e.generation && Step(p, m, c, Admit(e)).now == c.now
            && t.accepted.Keys == if |BeyondGap(all)| <= p.reorderWindow then all else s.accepted.Keys
  {
    hide Decide, Sound, BeyondGap, Fresh;
    FreshSound(p, m, e.generation);
    var s := ScopeOr(c, e.key, e.generation);
    assert Sound(p, m, s);
    TakenIn(p, m, c.now, s, e);
    OrderedIff(p, m, c.now, s, e);
    ExpectedIsMissing(p, m, s);
    assert |BeyondGap(s.accepted.Keys)| <= p.reorderWindow by { PendingFits(p, m, s); }
    GapGrows(s.accepted.Keys, NextExpected(s), e.sequence);
    assert (s.accepted[e.sequence := e.payload]).Keys == s.accepted.Keys + {e.sequence};
  }

  lemma {:induction false} PendingFits<T>(p: Policy, m: Merge<T>, s: Scope<T>)
    requires Sound(p, m, s)
    ensures |BeyondGap(s.accepted.Keys)| <= p.reorderWindow
  {
    ExpectedIsMissing(p, m, s);
    assert |s.pending.Keys| == |s.pending|;
  }

  lemma {:induction false} GapGrows(seen: set<int>, next: nat, n: int)
    requires FirstMissing(seen, next) && n >= 0 && forall i :: i in seen ==> i >= 0
    ensures n in seen ==> seen + {n} == seen
    ensures n == next ==> |BeyondGap(seen + {n})| <= |BeyondGap(seen)|
    ensures n !in seen && n != next ==> |BeyondGap(seen + {n})| == |BeyondGap(seen)| + 1
    ensures FirstMissing(seen, n) <==> n == next
  {
    if n !in seen && n != next {
      assert n > next;
      assert BeyondGap(seen + {n}) == BeyondGap(seen) + {n};
    }
    if n == next {
      assert BeyondGap(seen + {n}) <= BeyondGap(seen);
      SubsetSize(BeyondGap(seen + {n}), BeyondGap(seen));
    }
  }

  lemma {:induction false} SubsetSize<T>(a: set<T>, b: set<T>)
    requires a <= b
    ensures |a| <= |b|
  {
    assert b == a + (b - a);
  }

  lemma {:induction false} SequencesSnoc<K, T>(es: seq<Event<K, T>>)
    requires es != [] && forall i :: 0 <= i < |es| ==> es[i].Admit?
    ensures Sequences(es) == Sequences(es[..|es| - 1]) + {es[|es| - 1].envelope.sequence}
  {
    var front := es[..|es| - 1];
    forall n ensures n in Sequences(es) <==> n in Sequences(front) + {es[|es| - 1].envelope.sequence} {
      if n in Sequences(front) {
        var i :| 0 <= i < |front| && front[i].envelope.sequence == n;
        assert es[i] == front[i];
      }
      if n in Sequences(es) && n != es[|es| - 1].envelope.sequence {
        var i :| 0 <= i < |es| && es[i].envelope.sequence == n;
        assert es[i] == front[i];
      }
    }
  }

  lemma {:induction false} RunSnoc<K, T>(p: Policy, m: Merge<T>, c: Core<K, T>, es: seq<Event<K, T>>)
    requires es != []
    ensures Run(p, m, c, es) == Step(p, m, Run(p, m, c, es[..|es| - 1]), es[|es| - 1])
    decreases |es|
  {
    hide Step;
    if |es| > 1 {
      assert es[1..][..|es| - 2] == es[..|es| - 1][1..];
      RunSnoc(p, m, Step(p, m, c, es[0]), es[1..]);
    } else {
      assert es[1..] == [] && es[..0] == [];
    }
  }

  /** Progress: whatever is offered fresh and in the current generation, in any order the
      reorder window can hold and with a window that does not push back, is accepted, and the
      watermark stands right in front of the first sequence that was never offered. */
  lemma {:induction false} OffersAreDelivered<K, T>(p: Policy, m: Merge<T>, c: Core<K, T>, es: seq<Event<K, T>>,
      k: K, g: int)
    requires p.overflow != Block && p.overflow != DropNewest && AllSound(p, m, c)
    requires ScopeOr(c, k, g).lifecycle != Closed && ScopeOr(c, k, g).generation == g
    requires Offering(p, c.now, es, k, g) && Holdable(p, ScopeOr(c, k, g).accepted.Keys, es)
    ensures var s, d := ScopeOr(c, k, g), Run(p, m, c, es); var t := ScopeOr(d, k, g);
            && AllSound(p, m, d) && d.now == c.now && t.lifecycle != Closed && t.generation == g
            && t.accepted.Keys == s.accepted.Keys + Sequences(es) && FirstMissing(t.accepted.Keys, NextExpected(t))
    decreases |es|
  {
    var s := ScopeOr(c, k, g);
    RunSound(p, m, c, es);
    if es == [] {
      assert Sequences(es) == {};
      ScopeSound(p, m, c, k, g);
      ExpectedIsMissing(p, m, s);
    } else {
      var front, e := es[..|es| - 1], es[|es| - 1];
      hide AllSound, Step, BeyondGap, Fresh, Run, Offering, Holdable, Sequences, FirstMissing, ScopeOr;
      OfferingFront(p, c.now, es, k, g, s.accepted.Keys);
      OffersAreDelivered(p, m, c, front, k, g);
      RunSnoc(p, m, c, es);
      OfferAcceptedIff(p, m, Run(p, m, c, front), e.envelope);
      ScopeSound(p, m, Run(p, m, c, es), k, g);
      ExpectedIsMissing(p, m, ScopeOr(Run(p, m, c, es), k, g));
    }
  }

  lemma {:induction false} OfferingFront<K, T>(p: Policy, now: int, es: seq<Event<K, T>>, k: K, g: int, seen: set<int>)
    requires es != [] && Offering(p, now, es, k, g) && Holdable(p, seen, es)
    ensures var front, e := es[..|es| - 1], es[|es| - 1];
            && Offering(p, now, front, k, g) && Holdable(p, seen, front)
            && e.Admit? && e.envelope.key == k && e.envelope.generation == g && e.envelope.sequence >= 0
            && Fresh(p, now, e.envelope)
            && seen + Sequences(front) + {e.envelope.sequence} == seen + Sequences(es)
            && |BeyondGap(seen + Sequences(es))| <= p.reorderWindow
  {
    hide BeyondGap, Fresh, Sequences;
    var front := es[..|es| - 1];
    assert forall i :: 0 <= i < |front| ==> front[i] == es[i];
    assert forall j :: 0 <= j <= |front| ==> front[..j] == es[..j];
    SequencesSnoc(es);
    assert es[..|es|] == es;
  }

  lemma {:induction false} ScopeSound<K, T>(p: Policy, m: Merge<T>, c: Core<K, T>, k: K, g: int)
    requires AllSound(p, m, c)
    ensures Sound(p, m, ScopeOr(c, k, g))
  {
    FreshSound(p, m, g);
    hide Sound;
  }

  /** In particular a new scope that is offered `0 .. n` in any such order has the watermark
      pass `n`. */
  lemma {:induction false} WatermarkArrives<K, T>(p: Policy, m: Merge<T>, c: Core<K, T>, es: seq<Event<K, T>>,
      k: K, g: int, n: nat)
    requires p.overflow != Block && p.overflow != DropNewest && AllSound(p, m, c)
    requires ScopeOr(c, k, g).lifecycle != Closed && ScopeOr(c, k, g).generation == g
    requires Offering(p, c.now, es, k, g) && Holdable(p, ScopeOr(c, k, g).accepted.Keys, es)
    requires forall i :: 0 <= i <= n ==> i in ScopeOr(c, k, g).accepted || i in Sequences(es)
    ensures var t := ScopeOr(Run(p, m, c, es), k, g); t.deliveredThrough.Some? && t.deliveredThrough.value >= n
  {
    hide AllSound, Run, Holdable, Sequences;
    OffersAreDelivered(p, m, c, es, k, g);
  }
}
