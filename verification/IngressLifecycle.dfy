/** What the lifecycle calls and deliveries do to a scope beside its payloads: readiness,
    the error count and the time stamp. */
module IngressLifecycle {
  import opened Wrappers
  import opened Ingress
  import opened IngressProgress

  /** Delivering scopes are live, others wait for their first payload. */
  predicate Awake<T>(s: Scope<T>) {
    s.lifecycle == if s.deliveredThrough.Some? then Live else Opening
  }

  /** A fresh envelope of a higher generation for a scope that is not closed. */
  predicate Fences<K, T>(p: Policy, now: int, s: Scope<T>, v: Envelope<K, T>) {
    s.lifecycle != Closed && v.generation > s.generation && Fresh(p, now, v)
  }

  /** Only an explicit call closes a scope, and only opening or reconnecting revives it; a
      suspension holds until the next delivery, opening or reconnect; and what wakes a scope
      makes it live exactly when it has delivered. An envelope of a higher generation fences the
      scope even when it is refused. */
  lemma {:induction false} LifecycleAfter<K, T>(p: Policy, m: Merge<T>, c: Core<K, T>, e: Event<K, T>, k: K)
    requires k in c.scopes && Target(e) == Some(k)
    ensures k in Step(p, m, c, e).scopes
    ensures var s, t := c.scopes[k], Step(p, m, c, e).scopes[k];
            match e
            case Close(_) => t.lifecycle == Closed
            case Suspend(_) => t.lifecycle == if s.lifecycle == Closed then Closed else Suspended
            case Open(_, g) =>
              Awake(t) <==> !(s.lifecycle != Closed && g > s.generation && s.deliveredThrough.Some?)
            case Reconnect(_, _) => Awake(t)
            case Admit(v) =>
              (match Decide(p, m, c.now, s, v).1
               case Admitted(_, _, _) => t.lifecycle == Live && Awake(t)
               case Buffered(_) => t.lifecycle == s.lifecycle
               case _ => t == if Fences(p, c.now, s, v) then Handoff(s, v.generation) else s)
            case _ => t.lifecycle == s.lifecycle
  {
    hide Flushed;
    if e.Admit? {
      hide Ordered;
      OrderedWakes(p, m, c.scopes[k], e.envelope, None);
      OrderedWakes(p, m, Handoff(c.scopes[k], e.envelope.generation), e.envelope,
          Some((c.scopes[k].generation, e.envelope.generation)));
    }
  }

  /** Opening a scope that has delivered at a higher generation leaves it live although nothing
      of the new generation was delivered; reconnecting it does not. */
  lemma {:induction false} OpenLeavesLive<K, T>(p: Policy, m: Merge<T>, c: Core<K, T>, k: K, g: int)
    requires k in c.scopes && c.scopes[k].lifecycle == Live && c.scopes[k].deliveredThrough.Some?
    requires g > c.scopes[k].generation
    ensures var t, u := Step(p, m, c, Open(k, g)).scopes[k], Step(p, m, c, Reconnect(k, g)).scopes[k];
            t.lifecycle == Live && t.deliveredThrough.None? && u.lifecycle == Opening && u.deliveredThrough.None?
  {
  }

  /** A refused envelope may cost the undrained window: with no room to buffer, the first
      envelope of a higher generation is refused if it is not in order, and what was merged and
      not yet drained is gone. */
  lemma {:induction false} RefusedFenceLosesWindow<K, T>(p: Policy, m: Merge<T>, c: Core<K, T>, v: Envelope<K, T>)
    requires v.key in c.scopes && Fences(p, c.now, c.scopes[v.key], v) && v.sequence > 0 && p.reorderWindow == 0
    ensures Admitting(p, m, c, v).1 == Refuse(ReorderWindowOverflow)
    ensures v.key in Step(p, m, c, Admit(v)).scopes && Step(p, m, c, Admit(v)).scopes[v.key].window.None?
  {
  }

  lemma {:induction false} OrderedWakes<K, T>(p: Policy, m: Merge<T>, s: Scope<T>, e: Envelope<K, T>,
      handoff: Option<(int, int)>)
    ensures var r := Ordered(p, m, s, e, handoff);
            && (r.1.Admitted? ==> r.0.lifecycle == Live && r.0.deliveredThrough.Some?)
            && (r.1.Buffered? ==> r.0.lifecycle == s.lifecycle)
            && (r.1.Refuse? || r.1.Blocked? ==> r.0 == s)
  {
    hide Flushed;
    if e.sequence == NextExpected(s) {
      var room := if Full(p, s) && p.overflow == DropOldest then Cleared(s) else s;
      FlushedKeeps(m, Delivered(m, room, Item(e.sequence, e.payload), e.stampedAt)
                      .(lifecycle := Live, errors := 0, accepted := s.accepted[e.sequence := e.payload]));
    }
  }

  /** A scope first appears live by a delivery, opening by anything else, and not at all by an
      envelope that is turned away or a call for a key that is not tracked. */
  lemma {:induction false} Appears<K, T>(p: Policy, m: Merge<T>, c: Core<K, T>, e: Event<K, T>, k: K)
    requires k !in c.scopes && Target(e) == Some(k)
    ensures var d := Step(p, m, c, e);
            && (k in d.scopes <==>
                  (match e
                   case Admit(v) =>
                     var r := Decide(p, m, c.now, NewScope<T>(v.generation), v).1;
                     r.Admitted? || r.Buffered?
                   case Open(_, _) => true
                   case Reconnect(_, _) => true
                   case Fail(_) => true
                   case _ => false))
            && (k !in d.scopes ==> d == c)
            && (k in d.scopes ==>
                  d.scopes[k].lifecycle == (if e.Admit? && d.scopes[k].deliveredThrough.Some? then Live else Opening)
                  && d.scopes[k].generation
                     == (if e.Admit? then e.envelope.generation else if e.Fail? then 0 else e.generation))
  {
    hide Flushed;
    if e.Admit? {
      hide Ordered;
      OrderedWakes(p, m, NewScope<T>(e.envelope.generation), e.envelope, None);
      if Decide(p, m, c.now, NewScope<T>(e.envelope.generation), e.envelope).1.Buffered? {
        BufferedKeeps(p, m, NewScope<T>(e.envelope.generation), e.envelope);
      }
      OrderedTakes(p, m, NewScope<T>(e.envelope.generation), e.envelope, None);
    }
  }

  lemma {:induction false} BufferedKeeps<K, T>(p: Policy, m: Merge<T>, s: Scope<T>, e: Envelope<K, T>)
    requires Ordered(p, m, s, e, None).1.Buffered?
    ensures Ordered(p, m, s, e, None).0.deliveredThrough == s.deliveredThrough
  {
    hide Flushed;
  }

  /** Errors in a row: a failure counts one more, a delivery, a reconnect or a closing starts
      over, and nothing else touches the count. */
  lemma {:induction false} ErrorsInARow<K, T>(p: Policy, m: Merge<T>, c: Core<K, T>, e: Event<K, T>, k: K)
    requires k in c.scopes && Target(e) == Some(k) && c.scopes[k].lifecycle != Closed
    ensures k in Step(p, m, c, e).scopes
    ensures var s, t := c.scopes[k], Step(p, m, c, e).scopes[k];
            match e
            case Fail(_) => t.errors == s.errors + 1
            case Reconnect(_, _) => t.errors == 0
            case Close(_) => t.errors == 0
            case Admit(v) => t.errors == if Decide(p, m, c.now, s, v).1.Admitted? then 0 else s.errors
            case _ => t.errors == s.errors
  {
    hide Flushed;
    if e.Admit? {
      hide Ordered;
      OrderedCounts(p, m, c.scopes[k], e.envelope, None);
      OrderedCounts(p, m, Handoff(c.scopes[k], e.envelope.generation), e.envelope,
          Some((c.scopes[k].generation, e.envelope.generation)));
    }
  }

  lemma {:induction false} OrderedCounts<K, T>(p: Policy, m: Merge<T>, s: Scope<T>, e: Envelope<K, T>,
      handoff: Option<(int, int)>)
    ensures var r := Ordered(p, m, s, e, handoff); r.0.errors == if r.1.Admitted? then 0 else s.errors
  {
    hide Flushed;
    if e.sequence == NextExpected(s) {
      var room := if Full(p, s) && p.overflow == DropOldest then Cleared(s) else s;
      FlushedKeeps(m, Delivered(m, room, Item(e.sequence, e.payload), e.stampedAt)
                      .(lifecycle := Live, errors := 0, accepted := s.accepted[e.sequence := e.payload]));
    }
  }

  // ----- time stamps -----

  /** The latest of `from` and the stamps of what left the buffer. */
  ghost predicate LatestStamp<T>(stamp: int, from: int, before: map<int, Held<T>>, after: map<int, Held<T>>) {
    && stamp >= from && (forall n :: n in before && n !in after ==> stamp >= before[n].stampedAt)
    && (stamp == from || exists n :: n in before && n !in after && stamp == before[n].stampedAt)
  }

  lemma {:induction false} FlushedStamp<T>(m: Merge<T>, s: Scope<T>)
    ensures var r := Flushed(m, s);
            LatestStamp(r.stampedAt, s.stampedAt, s.pending, r.pending)
            && forall n :: n in r.pending ==> n in s.pending && r.pending[n] == s.pending[n]
    decreases |s.pending|
  {
    var n := NextExpected(s);
    if n in s.pending {
      var d := Delivered(m, s.(pending := s.pending - {n}), Item(n, s.pending[n].payload), s.pending[n].stampedAt);
      FlushedStamp(m, d);
      FlushedAbove(m, d);
      var r := Flushed(m, d);
      assert n !in d.pending;
      assert r == Flushed(m, s);
    }
  }

  lemma {:induction false} FlushedAbove<T>(m: Merge<T>, s: Scope<T>)
    ensures Flushed(m, s).pending.Keys <= s.pending.Keys
    decreases |s.pending|
  {
    var n := NextExpected(s);
    if n in s.pending {
      FlushedAbove(m, Delivered(m, s.(pending := s.pending - {n}), Item(n, s.pending[n].payload),
          s.pending[n].stampedAt));
    }
  }

  /** A buffered envelope keeps its stamp, and a delivery moves the scope's stamp to the latest
      of its own, the envelope's and those of the buffered ones it delivers. */
  lemma {:induction false} StampsDelivered<K, T>(p: Policy, m: Merge<T>, s: Scope<T>, e: Envelope<K, T>,
      handoff: Option<(int, int)>)
    ensures var r := Ordered(p, m, s, e, handoff);
            && (r.1.Buffered? ==> r.0.stampedAt == s.stampedAt
                                  && r.0.pending == s.pending[e.sequence := Held(e.payload, e.stampedAt)])
            && (r.1.Admitted? ==> LatestStamp(r.0.stampedAt, Max(s.stampedAt, e.stampedAt), s.pending, r.0.pending))
  {
    if e.sequence == NextExpected(s) {
      var room := if Full(p, s) && p.overflow == DropOldest then Cleared(s) else s;
      FlushedStamp(m, Delivered(m, room, Item(e.sequence, e.payload), e.stampedAt)
                      .(lifecycle := Live, errors := 0, accepted := s.accepted[e.sequence := e.payload]));
    }
    hide Flushed;
  }

  /** The clock is what the last tick said, and no other call moves it. */
  lemma {:induction false} ClockFollows<K, T>(p: Policy, m: Merge<T>, c: Core<K, T>, e: Event<K, T>)
    ensures Step(p, m, c, e).now == if e.Tick? then e.at else c.now
  {
    hide Decide;
  }

  /** Closing gives up what was buffered and undrained; opening a closed scope starts over. */
  lemma {:induction false} ClosedStartsOver<K, T>(p: Policy, m: Merge<T>, c: Core<K, T>, k: K, g: int)
    requires k in c.scopes
    ensures var d := Step(p, m, c, Close(k));
            && k in d.scopes
            && (c.scopes[k].lifecycle != Closed ==>
                  d.scopes[k].pending == map[] && d.scopes[k].window.None?
                  && NextExpected(d.scopes[k]) == NextExpected(c.scopes[k]))
            && Step(p, m, d, Open(k, g)).scopes == d.scopes[k := NewScope(g)]
  {
  }
}
