/** What the consumer of a scope receives: nothing delivered is lost, whatever order the
    envelopes arrive in, and the calls that break this. */
module IngressDelivery {
  import opened Wrappers
  import opened Ingress

  function Payloads<T>(items: seq<Item<T>>): seq<T> {
    seq(|items|, i requires 0 <= i < |items| => items[i].payload)
  }

  function Flatten<T>(runs: seq<seq<T>>): seq<T>
    decreases |runs|
  {
    if runs == [] then [] else Flatten(runs[..|runs| - 1]) + runs[|runs| - 1]
  }

  lemma {:induction false} FlattenSnoc<T>(runs: seq<seq<T>>, r: seq<T>)
    ensures Flatten(runs + [r]) == Flatten(runs) + r
  {
    assert (runs + [r])[..|runs|] == runs;
  }

  /** The payloads behind the drained values, then those in the window, are the payloads
      delivered in the current generation. */
  ghost predicate Conserved<T>(s: Scope<T>) {
    Flatten(s.drains) + s.folded == Payloads(s.delivered)
  }

  lemma {:induction false} DeliveredConservedIff<T>(m: Merge<T>, s: Scope<T>, item: Item<T>, stampedAt: int)
    requires item.sequence >= 0
    ensures Conserved(Delivered(m, s, item, stampedAt)) <==> Conserved(s)
  {
    var out := Flatten(s.drains);
    assert out + (s.folded + [item.payload]) == (out + s.folded) + [item.payload];
    assert Payloads(s.delivered + [item]) == Payloads(s.delivered) + [item.payload];
    assert ((out + s.folded) + [item.payload])[..|out + s.folded|] == out + s.folded;
    assert (Payloads(s.delivered) + [item.payload])[..|s.delivered|] == Payloads(s.delivered);
  }

  lemma {:induction false} FlushedConservedIff<T>(m: Merge<T>, s: Scope<T>)
    ensures Conserved(Flushed(m, s)) <==> Conserved(s)
    decreases |s.pending|
  {
    hide Conserved;
    var n := NextExpected(s);
    if n in s.pending {
      var rest := s.(pending := s.pending - {n});
      var next := Delivered(m, rest, Item(n, s.pending[n].payload), s.pending[n].stampedAt);
      DeliveredConservedIff(m, rest, Item(n, s.pending[n].payload), s.pending[n].stampedAt);
      FlushedConservedIff(m, next);
      SameConserved(s, rest);
    }
  }

  lemma {:induction false} SameConserved<T>(s: Scope<T>, r: Scope<T>)
    requires s.drains == r.drains && s.folded == r.folded && s.delivered == r.delivered
    ensures Conserved(s) <==> Conserved(r)
  {
  }

  lemma {:induction false} ClearedConservedIff<T>(s: Scope<T>)
    requires Conserved(s)
    ensures Conserved(Cleared(s)) <==> s.folded == []
  {
    assert Flatten(s.drains) + [] == Flatten(s.drains);
    assert |Payloads(s.delivered)| == |Flatten(s.drains)| + |s.folded|;
  }

  lemma {:induction false} HandoffConserved<T>(s: Scope<T>, g: int)
    ensures Conserved(Handoff(s, g))
    ensures Conserved(Restarted(s, g)) <==> s.folded == []
  {
    assert Payloads<T>([]) == [];
    assert Flatten<T>([]) + s.folded == s.folded;
  }

  lemma {:induction false} DrainedConserved<T>(s: Scope<T>)
    requires Conserved(s)
    ensures Conserved(Drained(s))
  {
    FlattenSnoc(s.drains, s.folded);
    assert Flatten(s.drains + [s.folded]) + [] == Flatten(s.drains) + s.folded;
  }

  /** The envelope is next in order and clears a window that nobody drained. */
  predicate Displaces<K, T>(p: Policy, now: int, s: Scope<T>, e: Envelope<K, T>) {
    && s.lifecycle != Closed && e.generation == s.generation && Max(0, now - e.stampedAt) <= p.freshnessHorizon
    && e.sequence == NextExpected(s)
    && p.overflow == DropOldest && s.windowDepth >= p.highWater && s.window.Some?
  }

  lemma {:induction false} OrderedConservedIff<K, T>(p: Policy, m: Merge<T>, s: Scope<T>, e: Envelope<K, T>,
      handoff: Option<(int, int)>)
    requires Sound(p, m, s) && Conserved(s)
    ensures Conserved(Ordered(p, m, s, e, handoff).0)
            <==> !(e.sequence == NextExpected(s) && p.overflow == DropOldest
                   && s.windowDepth >= p.highWater && s.window.Some?)
  {
    hide Conserved, Flushed, InOrder, Waiting, Windowed;
    WindowEmpty(m, s.window, s.windowDepth, s.folded);
    ClearedConservedIff(s);
    var room := if s.windowDepth >= p.highWater && p.overflow == DropOldest then Cleared(s) else s;
    var r := Ordered(p, m, s, e, handoff).0;
    if e.sequence == NextExpected(s) {
      var first := Delivered(m, room, Item(e.sequence, e.payload), e.stampedAt);
      var first' := first.(lifecycle := Live, errors := 0, accepted := s.accepted[e.sequence := e.payload]);
      DeliveredConservedIff(m, room, Item(e.sequence, e.payload), e.stampedAt);
      SameConserved(first, first');
      FlushedConservedIff(m, first');
    } else {
      SameConserved(s, r);
    }
  }

  /** The calls after which a delivered payload is neither drained nor in the window, or
      the window holds one the current generation never delivered. */
  predicate Loses<K, T>(p: Policy, now: int, s: Scope<T>, e: Event<K, T>) {
    match e
    case Admit(envelope) => Displaces(p, now, s, envelope)
    case Open(_, g) => s.lifecycle != Closed && g > s.generation && s.window.Some?
    case Close(_) => s.lifecycle != Closed && s.window.Some?
    case _ => false
  }

  lemma {:induction false} DecideConservedIff<K, T>(p: Policy, m: Merge<T>, now: int, s: Scope<T>, e: Envelope<K, T>)
    requires Sound(p, m, s) && Conserved(s)
    ensures Conserved(Decide(p, m, now, s, e).0) <==> !Displaces(p, now, s, e)
  {
    hide Conserved, Sound, Ordered;
    if s.lifecycle != Closed {
      OrderedConservedIff(p, m, s, e, None);
      var reset := Handoff(s, e.generation);
      HandoffConserved(s, e.generation);
      assert Sound(p, m, reset) by { HandoffSound(p, m, s, e.generation); }
      OrderedConservedIff(p, m, reset, e, Some((s.generation, e.generation)));
    }
  }

  lemma {:induction false} HandoffSound<T>(p: Policy, m: Merge<T>, s: Scope<T>, g: int)
    requires Sound(p, m, s) && s.lifecycle != Closed
    ensures Sound(p, m, Handoff(s, g))
  {
  }

  /** Conservation: a call keeps every delivered payload, drained or in the window, exactly
      when it is not one of the losing calls. */
  lemma {:induction false} StepConservedIff<K, T>(p: Policy, m: Merge<T>, c: Core<K, T>, e: Event<K, T>, k: K)
    requires AllSound(p, m, c) && k in c.scopes && Conserved(c.scopes[k])
    ensures k in Step(p, m, c, e).scopes
    ensures Conserved(Step(p, m, c, e).scopes[k]) <==> !(Target(e) == Some(k) && Loses(p, c.now, c.scopes[k], e))
  {
    hide Decide, Displaces, Opened, Reconnected, Drained, ClosedScope, SuspendedScope, Conserved, Sound;
    var s := c.scopes[k];
    if Target(e) != Some(k) {
      StepElsewhere(p, m, c, e, k);
    } else {
      match e
      case Admit(envelope) => DecideConservedIff(p, m, c.now, s, envelope);
      case Open(_, g) => OpenedConservedIff(p, m, s, g);
      case Reconnect(_, g) => ReconnectedConserved(s, g);
      case Close(_) => ClosedConservedIff(p, m, s);
      case Drain(_) => DrainedConserved(s);
      case Suspend(_) => SuspendedConserved(s);
      case Fail(_) => SameConserved(s, s.(errors := s.errors + 1));
    }
  }

  lemma {:induction false} OpenedConservedIff<T>(p: Policy, m: Merge<T>, s: Scope<T>, g: int)
    requires Sound(p, m, s) && Conserved(s)
    ensures Conserved(Opened(s, g)) <==> !(s.lifecycle != Closed && g > s.generation && s.window.Some?)
  {
    hide Conserved, InOrder, Waiting, Windowed;
    WindowEmpty(m, s.window, s.windowDepth, s.folded);
    var woken := s.(lifecycle := LiveOrOpening(s));
    SameConserved(s, woken);
    HandoffConserved(woken, g);
    assert Conserved(NewScope<T>(g)) by { SameConserved(NewScope(g), Handoff(woken, g)); }
  }

  lemma {:induction false} ReconnectedConserved<T>(s: Scope<T>, g: int)
    requires Conserved(s)
    ensures Conserved(Reconnected(s, g))
  {
    hide Conserved;
    HandoffConserved(s, g);
    SameConserved(if g > s.generation then Handoff(s, g) else s, Reconnected(s, g));
  }

  lemma {:induction false} ClosedConservedIff<T>(p: Policy, m: Merge<T>, s: Scope<T>)
    requires Sound(p, m, s) && Conserved(s)
    ensures Conserved(ClosedScope(s)) <==> !(s.lifecycle != Closed && s.window.Some?)
  {
    hide Conserved, InOrder, Waiting, Windowed;
    WindowEmpty(m, s.window, s.windowDepth, s.folded);
    ClearedConservedIff(s);
    SameConserved(if s.lifecycle == Closed then s else Cleared(s), ClosedScope(s));
  }

  lemma {:induction false} SuspendedConserved<T>(s: Scope<T>)
    requires Conserved(s)
    ensures Conserved(SuspendedScope(s))
  {
    hide Conserved;
    SameConserved(s, SuspendedScope(s));
  }

  // ----- arrival order does not matter -----

  /** The values a consumer drained. */
  function Values<T>(m: Merge<T>, drains: seq<seq<T>>): seq<T>
    requires Filled(drains)
    decreases |drains|
  {
    if drains == [] then []
    else
      FoldEmpty(m, drains[|drains| - 1]);
      Values(m, drains[..|drains| - 1]) + [Fold(m, drains[|drains| - 1]).value]
  }

  /** All drained values and then the window, merged. */
  function Total<T>(m: Merge<T>, s: Scope<T>): Option<T>
    requires Filled(s.drains)
  {
    Fold(m, Values(m, s.drains) + if s.window.Some? then [s.window.value] else [])
  }

  lemma {:induction false} ValuesFold<T(!new)>(m: Merge<T>, drains: seq<seq<T>>)
    requires Associative(m) && Filled(drains)
    ensures Fold(m, Values(m, drains)) == Fold(m, Flatten(drains))
    ensures Values(m, drains) == [] <==> Flatten(drains) == []
    decreases |drains|
  {
    if drains != [] {
      var front, last := drains[..|drains| - 1], drains[|drains| - 1];
      ValuesFold(m, front);
      Rejoin(m, Values(m, front), Flatten(front), last);
    }
  }

  /** Replacing a run by its folded value leaves the fold of the whole unchanged. */
  lemma {:induction false} Rejoin<T(!new)>(m: Merge<T>, values: seq<T>, payloads: seq<T>, run: seq<T>)
    requires Associative(m) && run != [] && Fold(m, values) == Fold(m, payloads)
    ensures Fold(m, run).Some?
    ensures Fold(m, values + [Fold(m, run).value]) == Fold(m, payloads + run)
  {
    FoldEmpty(m, values);
    FoldEmpty(m, payloads);
    FoldEmpty(m, run);
    FoldSnoc(m, values, Fold(m, run).value);
    if payloads == [] {
      assert payloads + run == run;
    } else {
      FoldConcat(m, payloads, run);
    }
  }

  lemma {:induction false} TotalIsFold<T(!new)>(p: Policy, m: Merge<T>, s: Scope<T>)
    requires Associative(m) && Sound(p, m, s) && Conserved(s)
    ensures Total(m, s) == Fold(m, Payloads(s.delivered))
  {
    hide Fold, Values, Flatten, Payloads, InOrder, Waiting;
    ValuesFold(m, s.drains);
    FoldEmpty(m, s.folded);
    if s.window.Some? {
      Rejoin(m, Values(m, s.drains), Flatten(s.drains), s.folded);
    } else {
      assert Values(m, s.drains) + [] == Values(m, s.drains);
      assert Flatten(s.drains) + [] == Flatten(s.drains);
    }
  }

  /** An event that keeps scope `k` open in generation `g` and carries the payload of its
      sequence number. */
  ghost predicate Steady<K, T>(e: Event<K, T>, k: K, g: int, payload: nat -> T) {
    match e
    case Admit(v) =>
      v.key == k ==> v.generation <= g && (v.generation == g && v.sequence >= 0 ==> v.payload == payload(v.sequence))
    case Open(k', g') => k' == k ==> g' <= g
    case Reconnect(k', g') => k' == k ==> g' <= g
    case Close(k') => k' != k
    case _ => true
  }

  ghost predicate Carrying<T>(s: Scope<T>, g: int, payload: nat -> T) {
    && s.generation == g && s.lifecycle != Closed
    && forall n: nat :: n in s.accepted ==> s.accepted[n] == payload(n)
  }

  lemma {:induction false} FlushedCarries<T>(m: Merge<T>, s: Scope<T>)
    ensures Flushed(m, s).accepted == s.accepted && Flushed(m, s).generation == s.generation
        && Flushed(m, s).lifecycle == s.lifecycle
    decreases |s.pending|
  {
    var n := NextExpected(s);
    if n in s.pending {
      var held := s.pending[n];
      FlushedCarries(m, Delivered(m, s.(pending := s.pending - {n}), Item(n, held.payload), held.stampedAt));
    }
  }

  lemma {:induction false} DecideCarries<K, T>(p: Policy, m: Merge<T>, now: int, s: Scope<T>, e: Envelope<K, T>,
      g: int, payload: nat -> T)
    requires Carrying(s, g, payload) && e.generation <= g
    requires e.generation == g && e.sequence >= 0 ==> e.payload == payload(e.sequence)
    ensures Carrying(Decide(p, m, now, s, e).0, g, payload)
  {
    hide Flushed;
    if e.generation == g && e.sequence == NextExpected(s) {
      var room := if s.windowDepth >= p.highWater && p.overflow == DropOldest then Cleared(s) else s;
      FlushedCarries(m, Delivered(m, room, Item(e.sequence, e.payload), e.stampedAt)
                        .(lifecycle := Live, errors := 0, accepted := s.accepted[e.sequence := e.payload]));
    }
  }

  lemma {:induction false} StepCarries<K, T>(p: Policy, m: Merge<T>, c: Core<K, T>, e: Event<K, T>, k: K, g: int,
      payload: nat -> T)
    requires k in c.scopes && Carrying(c.scopes[k], g, payload) && Steady(e, k, g, payload)
    ensures k in Step(p, m, c, e).scopes && Carrying(Step(p, m, c, e).scopes[k], g, payload)
  {
    hide Decide;
    if Target(e) != Some(k) {
      StepElsewhere(p, m, c, e, k);
    } else if e.Admit? {
      DecideCarries(p, m, c.now, c.scopes[k], e.envelope, g, payload);
    }
  }

  /** A run of steady events conserves what it delivers unless the overflow policy is to
      drop the oldest. */
  lemma {:induction false} SteadyRun<K, T>(p: Policy, m: Merge<T>, c: Core<K, T>, es: seq<Event<K, T>>, k: K, g: int,
      payload: nat -> T)
    requires p.overflow != DropOldest && AllSound(p, m, c)
    requires k in c.scopes && Carrying(c.scopes[k], g, payload) && Conserved(c.scopes[k])
    requires forall e :: e in es ==> Steady(e, k, g, payload)
    ensures var r := Run(p, m, c, es);
            AllSound(p, m, r) && k in r.scopes && Carrying(r.scopes[k], g, payload) && Conserved(r.scopes[k])
    decreases |es|
  {
    hide AllSound, Step, Carrying, Conserved;
    if es != [] {
      var e := es[0];
      StepSound(p, m, c, e);
      StepCarries(p, m, c, e, k, g, payload);
      StepConservedIff(p, m, c, e, k);
      SteadyKeeps(p, c.now, c.scopes[k], e, k, g, payload);
      SteadyRun(p, m, Step(p, m, c, e), es[1..], k, g, payload);
    }
  }

  lemma {:induction false} SteadyKeeps<K, T>(p: Policy, now: int, s: Scope<T>, e: Event<K, T>, k: K, g: int,
      payload: nat -> T)
    requires p.overflow != DropOldest && Carrying(s, g, payload) && Steady(e, k, g, payload)
    ensures Target(e) == Some(k) ==> !Loses(p, now, s, e)
  {
  }

  /** The payloads of `0 .. n - 1`. */
  function FirstOnes<T>(n: nat, payload: nat -> T): seq<T> {
    seq(n, i requires 0 <= i < n => payload(i))
  }

  lemma {:induction false} DeliveredAre<T>(p: Policy, m: Merge<T>, s: Scope<T>, g: int, payload: nat -> T)
    requires Sound(p, m, s) && Carrying(s, g, payload)
    ensures Payloads(s.delivered) == FirstOnes(NextExpected(s), payload)
  {
    hide Windowed, Waiting;
    forall i | 0 <= i < NextExpected(s) ensures s.delivered[i].payload == payload(i) {
      assert i in s.accepted && s.accepted[i] == payload(i);
    }
  }

  /** If a call of the run makes the scope, it makes it at generation `g`. */
  ghost predicate Founds<K, T>(p: Policy, m: Merge<T>, c: Core<K, T>, es: seq<Event<K, T>>, k: K, g: int)
    decreases |es|
  {
    k in c.scopes || es == []
    || ((k in Step(p, m, c, es[0]).scopes ==> Step(p, m, c, es[0]).scopes[k].generation == g)
        && Founds(p, m, Step(p, m, c, es[0]), es[1..], k, g))
  }

  lemma {:induction false} NewConserved<T>(g: int, payload: nat -> T)
    ensures Conserved(NewScope<T>(g)) && Carrying(NewScope<T>(g), g, payload)
  {
    HandoffConserved(NewScope<T>(g), g);
    SameConserved(NewScope<T>(g), Handoff(NewScope<T>(g), g));
  }

  /** An admission that makes a scope makes it at its own generation. */
  lemma {:induction false} AdmittedAt<K, T>(p: Policy, m: Merge<T>, now: int, e: Envelope<K, T>)
    ensures Decide(p, m, now, NewScope(e.generation), e).0.generation == e.generation
  {
    DecideCarries(p, m, now, NewScope(e.generation), e, e.generation, _ => e.payload);
  }

  /** The call that makes a scope does to nothing what it would do to a new scope. */
  lemma {:induction false} MadeAsNew<K, T>(p: Policy, m: Merge<T>, c: Core<K, T>, e: Event<K, T>, k: K, g: int)
    requires k !in c.scopes && k in Step(p, m, c, e).scopes && Step(p, m, c, e).scopes[k].generation == g
    ensures var d := c.(scopes := c.scopes[k := NewScope(g)]);
            k in Step(p, m, d, e).scopes && Step(p, m, d, e).scopes[k] == Step(p, m, c, e).scopes[k]
  {
    hide Decide;
    if e.Admit? && e.envelope.key == k { AdmittedAt(p, m, c.now, e.envelope); }
  }

  /** A run of steady calls that makes the scope, if at all, at generation `g` conserves what
      the scope delivers. */
  lemma {:induction false} FoundingRun<K, T>(p: Policy, m: Merge<T>, c: Core<K, T>, es: seq<Event<K, T>>, k: K, g: int,
      payload: nat -> T)
    requires p.overflow != DropOldest && AllSound(p, m, c) && k !in c.scopes && Founds(p, m, c, es, k, g)
    requires forall e :: e in es ==> Steady(e, k, g, payload)
    ensures var r := Run(p, m, c, es); var s := ScopeOr(r, k, g);
            Sound(p, m, s) && Carrying(s, g, payload) && Conserved(s)
    decreases |es|
  {
    NewConserved<T>(g, payload);
    FreshSound(p, m, g);
    hide Sound, Step, Carrying, Conserved;
    if es != [] {
      var e, next := es[0], Step(p, m, c, es[0]);
      StepSound(p, m, c, e);
      if k in next.scopes {
        var d := c.(scopes := c.scopes[k := NewScope(g)]);
        MadeAsNew(p, m, c, e, k, g);
        StepCarries(p, m, d, e, k, g, payload);
        StepConservedIff(p, m, d, e, k);
        SteadyKeeps(p, d.now, d.scopes[k], e, k, g, payload);
        SteadyRun(p, m, next, es[1..], k, g, payload);
      } else {
        FoundingRun(p, m, next, es[1..], k, g, payload);
      }
    }
  }

  /** The same for a scope that is new or not there yet. */
  lemma {:induction false} RunFromNew<K, T>(p: Policy, m: Merge<T>, c: Core<K, T>, es: seq<Event<K, T>>, k: K, g: int,
      payload: nat -> T)
    requires p.overflow != DropOldest && AllSound(p, m, c)
    requires ScopeOr(c, k, g) == NewScope(g) && Founds(p, m, c, es, k, g)
    requires forall e :: e in es ==> Steady(e, k, g, payload)
    ensures var s := ScopeOr(Run(p, m, c, es), k, g);
            Sound(p, m, s) && Carrying(s, g, payload) && Conserved(s)
  {
    hide Sound, Carrying, Conserved, Founds, Run;
    if k in c.scopes {
      NewConserved<T>(g, payload);
      SteadyRun(p, m, c, es, k, g, payload);
    } else {
      FoundingRun(p, m, c, es, k, g, payload);
    }
  }

  /** Arrival order is irrelevant: two schedules of one generation that carry one payload
      per sequence number, in any order, with repetitions, drains and same-generation
      suspends and reconnects in between, and that reach the same watermark, give their
      consumers the same total: the fold of the payloads in sequence order. Each may find the
      scope new or make it itself; a scope that is not there counts as a new one. */
  lemma {:induction false} ArrivalOrderIrrelevant<K, T(!new)>(p: Policy, q: Policy, m: Merge<T>, c: Core<K, T>,
      d: Core<K, T>, es: seq<Event<K, T>>, fs: seq<Event<K, T>>, k: K, g: int, payload: nat -> T)
    requires Associative(m) && p.overflow != DropOldest && q.overflow != DropOldest
    requires AllSound(p, m, c) && AllSound(q, m, d)
    requires ScopeOr(c, k, g) == NewScope(g) && ScopeOr(d, k, g) == NewScope(g)
    requires Founds(p, m, c, es, k, g) && Founds(q, m, d, fs, k, g)
    requires forall e :: e in es || e in fs ==> Steady(e, k, g, payload)
    ensures var s, t := ScopeOr(Run(p, m, c, es), k, g), ScopeOr(Run(q, m, d, fs), k, g);
            Filled(s.drains) && Filled(t.drains)
            && Total(m, s) == Fold(m, FirstOnes(NextExpected(s), payload))
            && (s.deliveredThrough == t.deliveredThrough ==> Total(m, s) == Total(m, t))
  {
    hide Total, Fold, Run, Founds, InOrder, Waiting, Windowed;
    RunFromNew(p, m, c, es, k, g, payload);
    RunFromNew(q, m, d, fs, k, g, payload);
    var s, t := ScopeOr(Run(p, m, c, es), k, g), ScopeOr(Run(q, m, d, fs), k, g);
    TotalIsFold(p, m, s);
    TotalIsFold(q, m, t);
    DeliveredAre(p, m, s, g, payload);
    DeliveredAre(q, m, t, g, payload);
  }

  /** Associativity is needed: a drain after the first of three payloads regroups the merge. */
  lemma {:induction false} DrainRegroups<K, T>(p: Policy, m: Merge<T>, k: K, x: T, y: T, z: T)
    requires p.freshnessHorizon >= 0 && p.highWater >= 3
    ensures var b, e := Admit(Envelope(k, 0, 1, 0, y)), Admit(Envelope(k, 0, 2, 0, z));
            var one := Step(p, m, Core(map[k := NewScope(0)], 0), Admit(Envelope(k, 0, 0, 0, x)));
            var drained := Step(p, m, one, Drain(k));
            var whole, apart := Step(p, m, Step(p, m, one, b), e), Step(p, m, Step(p, m, drained, b), e);
            k in whole.scopes && k in apart.scopes && Filled(whole.scopes[k].drains) && Filled(apart.scopes[k].drains)
            && Total(m, whole.scopes[k]) == Some(m(m(x, y), z)) && Total(m, apart.scopes[k]) == Some(m(x, m(y, z)))
  {
    var start := Core(map[k := NewScope(0)], 0);
    var one := AdmitNext(p, m, start, k, 0, x);
    assert one.scopes[k].folded == [x];
    var drained := DrainOne(p, m, one, k);
    hide Step, Total, Filled;
    var whole := AdmitTwo(p, m, one, k, y, z);
    var apart := AdmitTwo(p, m, drained, k, y, z);
    TotalUndrained(m, whole.scopes[k]);
    TotalDrained(m, apart.scopes[k], x);
  }

  lemma {:induction false} DrainOne<K, T>(p: Policy, m: Merge<T>, c: Core<K, T>, k: K) returns (r: Core<K, T>)
    requires k in c.scopes && c.scopes[k].window.Some?
    ensures r == Step(p, m, c, Drain(k)) && r.now == c.now && k in r.scopes
    ensures var s, t := c.scopes[k], r.scopes[k];
            t == s.(window := None, windowDepth := 0, folded := [], drains := s.drains + [s.folded])
  {
    r := Step(p, m, c, Drain(k));
  }

  lemma {:induction false} AdmitTwo<K, T>(p: Policy, m: Merge<T>, c: Core<K, T>, k: K, y: T, z: T)
    returns (r: Core<K, T>)
    requires p.freshnessHorizon >= 0 && c.now == 0 && k in c.scopes
    requires var s := c.scopes[k];
             && s.lifecycle != Closed && s.generation == 0 && s.pending == map[]
             && NextExpected(s) == 1 && s.windowDepth + 1 < p.highWater
    ensures k in r.scopes && r.scopes[k].drains == c.scopes[k].drains
    ensures r == Step(p, m, Step(p, m, c, Admit(Envelope(k, 0, 1, 0, y))), Admit(Envelope(k, 0, 2, 0, z)))
    ensures var w := c.scopes[k].window;
            r.scopes[k].window == Some(m(if w.Some? then m(w.value, y) else y, z))
  {
    hide Step;
    r := AdmitNext(p, m, c, k, 1, y);
    r := AdmitNext(p, m, r, k, 2, z);
  }

  lemma {:induction false} TotalUndrained<T>(m: Merge<T>, s: Scope<T>)
    requires s.drains == [] && s.window.Some?
    ensures Filled(s.drains) && Total(m, s) == s.window
  {
    FoldOne(m, s.window.value);
  }

  lemma {:induction false} TotalDrained<T>(m: Merge<T>, s: Scope<T>, x: T)
    requires s.drains == [[x]] && s.window.Some?
    ensures Filled(s.drains) && Total(m, s) == Some(m(x, s.window.value))
  {
    FoldOne(m, x);
    assert [[x]][..0] == [];
    assert Values(m, [[x]]) == [x] by { assert Values(m, [[x]][..0]) == []; }
    FoldSnoc(m, [x], s.window.value);
  }

  lemma {:induction false} FoldOne<T>(m: Merge<T>, x: T)
    ensures Fold(m, [x]) == Some(x) && Fold(m, [] + [x]) == Some(x)
  {
    assert [x][..0] == [] && [] + [x] == [x];
  }

  /** Admitting the next payload in order, with room and an empty buffer. */
  lemma {:induction false} AdmitNext<K, T>(p: Policy, m: Merge<T>, c: Core<K, T>, k: K, n: nat, x: T)
    returns (r: Core<K, T>)
    requires p.freshnessHorizon >= 0 && c.now == 0 && k in c.scopes
    requires var s := c.scopes[k];
             && s.lifecycle != Closed && s.generation == 0 && s.pending == map[]
             && NextExpected(s) == n && s.windowDepth < p.highWater
    ensures r == Step(p, m, c, Admit(Envelope(k, 0, n, 0, x))) && r.now == 0 && k in r.scopes
    ensures var s, t := c.scopes[k], r.scopes[k];
            t.window == Some(if s.window.Some? then m(s.window.value, x) else x) && t.windowDepth == s.windowDepth + 1
            && t.drains == s.drains && t.folded == s.folded + [x] && t.lifecycle == Live && t.generation == 0
                && t.pending == map[] && NextExpected(t) == n + 1
  {
    r := Step(p, m, c, Admit(Envelope(k, 0, n, 0, x)));
  }

  // ----- where the code departs from its documentation -----

  /** Opening a live scope at a higher generation restarts the sequence space but keeps the
      undrained window, so the first envelope of the new producer is merged into a value of
      the old one; a handoff or a reconnect at that generation discards the window. */
  lemma {:induction false} OpenMixesGenerations<K, T>(p: Policy, m: Merge<T>, k: K, x: T, y: T)
    requires p.freshnessHorizon >= 0 && p.highWater >= 2
    ensures var first := Step(p, m, Core(map[], 0), Admit(Envelope(k, 1, 0, 0, x)));
            var next := Admit(Envelope(k, 2, 0, 0, y));
            k in Step(p, m, Step(p, m, first, Open(k, 2)), next).scopes
            && Step(p, m, Step(p, m, first, Open(k, 2)), next).scopes[k].window == Some(m(x, y))
            && Step(p, m, Step(p, m, first, Reconnect(k, 2)), next).scopes[k].window == Some(y)
            && Step(p, m, first, next).scopes[k].window == Some(y)
  {
  }

  /** A suspended scope decides exactly as a live one does, and delivering makes it live. */
  lemma {:induction false} SuspendedDelivers<K, T>(p: Policy, m: Merge<T>, c: Core<K, T>, k: K, e: Envelope<K, T>)
    requires k in c.scopes && c.scopes[k].lifecycle == Suspended && e.key == k
    ensures var live := c.(scopes := c.scopes[k := c.scopes[k].(lifecycle := Live)]);
            Admitting(p, m, c, e).1 == Admitting(p, m, live, e).1
            && (Admitting(p, m, c, e).1.Admitted? ==>
                  Admitting(p, m, c, e).0 == Admitting(p, m, live, e).0 && Admitting(p, m, c, e).0.scopes[k].lifecycle
                      == Live)
  {
    hide Flushed;
    var s := c.scopes[k];
    var s' := s.(lifecycle := Live);
    assert Handoff(s, e.generation).(lifecycle := Live) == Handoff(s', e.generation);
    OrderedAwake(p, m, s, e, None);
    OrderedAwake(p, m, Handoff(s, e.generation), e, Some((s.generation, e.generation)));
  }

  lemma {:induction false} OrderedAwake<K, T>(p: Policy, m: Merge<T>, s: Scope<T>, e: Envelope<K, T>,
      handoff: Option<(int, int)>)
    ensures var a, b := Ordered(p, m, s, e, handoff), Ordered(p, m, s.(lifecycle := Live), e, handoff);
            a.1 == b.1 && (a.1.Admitted? ==> a.0 == b.0 && a.0.lifecycle == Live)
  {
    hide Flushed;
    if e.sequence == NextExpected(s) {
      var room := if s.windowDepth >= p.highWater && p.overflow == DropOldest then Cleared(s) else s;
      var first := Delivered(m, room, Item(e.sequence, e.payload), e.stampedAt);
      var room' := room.(lifecycle := Live);
      assert Delivered(m, room', Item(e.sequence, e.payload), e.stampedAt).(lifecycle := Live, errors := 0,
          accepted := s.accepted[e.sequence := e.payload])
          == first.(lifecycle := Live, errors := 0, accepted := s.accepted[e.sequence := e.payload]);
      FlushedCarries(m, first.(lifecycle := Live, errors := 0, accepted := s.accepted[e.sequence := e.payload]));
    }
  }
}
