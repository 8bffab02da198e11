/** The admission algebra of `src/lazily/ingress_core.py` as values: scopes, envelopes and
    the transition of every lifecycle and admission call. */
module Ingress {
  import opened Wrappers

  datatype Lifecycle = Opening | Live | Suspended | Closed

  datatype Overflow = Block | DropOldest | DropNewest | Conflate | Spill

  datatype Policy = Policy(freshnessHorizon: int, reorderWindow: nat, highWater: nat, overflow: Overflow)

  datatype Envelope<K, T> = Envelope(key: K, generation: int, sequence: int, stampedAt: int, payload: T)

  /** A payload waiting in the reorder buffer. */
  datatype Held<T> = Held(payload: T, stampedAt: int)

  /** One payload merged into the window, with the sequence number it arrived under. */
  datatype Item<T> = Item(sequence: int, payload: T)

  datatype Reason =
    | ScopeClosed | StaleGeneration | Expired | DuplicateSequence | DuplicateBuffered
    | ReorderWindowOverflow | Backpressure

  datatype Decision =
    | Refuse(reason: Reason)
    | Blocked
    | Buffered(gapFrom: nat)
    | Admitted(deliveredThrough: nat, conflated: bool, handoff: Option<(int, int)>)

  /** One scope. The last four fields are history that no decision reads: what was accepted
      and what was merged in the current generation, what was merged since the window was
      last cleared, and the runs of payloads behind each drained value. */
  datatype Scope<T> = Scope(
    lifecycle: Lifecycle,
    generation: int,
    deliveredThrough: Option<nat>,
    stampedAt: int,
    pending: map<int, Held<T>>,
    window: Option<T>,
    windowDepth: nat,
    errors: nat,
    accepted: map<int, T>,
    delivered: seq<Item<T>>,
    folded: seq<T>,
    drains: seq<seq<T>>
  )

  type Merge<!T> = (T, T) -> T

  function NewScope<T>(generation: int): Scope<T> {
    Scope(Opening, generation, None, 0, map[], None, 0, 0, map[], [], [], [])
  }

  function NextExpected<T>(s: Scope<T>): nat {
    if s.deliveredThrough.None? then 0 else s.deliveredThrough.value + 1
  }

  function LiveOrOpening<T>(s: Scope<T>): Lifecycle {
    if s.deliveredThrough.Some? then Live else Opening
  }

  function Cleared<T>(s: Scope<T>): Scope<T> {
    s.(window := None, windowDepth := 0, folded := [])
  }

  /** The sequence space restarts; the window is left alone. */
  function Restarted<T>(s: Scope<T>, generation: int): Scope<T> {
    s.(generation := generation, deliveredThrough := None, pending := map[], accepted := map[], delivered := [],
        drains := [])
  }

  function Handoff<T>(s: Scope<T>, generation: int): Scope<T> {
    Cleared(Restarted(s, generation))
  }

  function Max(a: int, b: int): int {
    if a < b then b else a
  }

  /** `_merge_into`, with the watermark the caller sets next. */
  function Delivered<T>(m: Merge<T>, s: Scope<T>, item: Item<T>, stampedAt: int): Scope<T>
    requires item.sequence >= 0
  {
    s.(window := Some(if s.window.Some? then m(s.window.value, item.payload) else item.payload),
       windowDepth := s.windowDepth + 1,
       stampedAt := Max(s.stampedAt, stampedAt),
       deliveredThrough := Some(item.sequence),
       delivered := s.delivered + [item],
       folded := s.folded + [item.payload])
  }

  /** The flush loop of `_decide`. */
  function Flushed<T>(m: Merge<T>, s: Scope<T>): (r: Scope<T>)
    ensures s.deliveredThrough.Some? ==> r.deliveredThrough.Some?
    decreases |s.pending|
  {
    var n := NextExpected(s);
    if n in s.pending then
      Flushed(m, Delivered(m, s.(pending := s.pending - {n}), Item(n, s.pending[n].payload), s.pending[n].stampedAt))
    else s
  }

  /** The reorder and backpressure part of `_decide`, after the generation fence. */
  function Ordered<K, T>(p: Policy, m: Merge<T>, s: Scope<T>, e: Envelope<K, T>,
      handoff: Option<(int, int)>): (Scope<T>, Decision) {
    var expected := NextExpected(s);
    if e.sequence < expected then (s, Refuse(DuplicateSequence))
    else if e.sequence > expected then
      if e.sequence in s.pending then (s, Refuse(DuplicateBuffered))
      else if |s.pending| >= p.reorderWindow then (s, Refuse(ReorderWindowOverflow))
      else
        (s.(pending := s.pending[e.sequence := Held(e.payload, e.stampedAt)],
            accepted := s.accepted[e.sequence := e.payload]), Buffered(expected))
    else if s.windowDepth >= p.highWater && p.overflow == Block then (s, Blocked)
    else if s.windowDepth >= p.highWater && p.overflow == DropNewest then (s, Refuse(Backpressure))
    else
      var room := if s.windowDepth >= p.highWater && p.overflow == DropOldest then Cleared(s) else s;
      var first := Delivered(m, room, Item(e.sequence, e.payload), e.stampedAt);
      var r := Flushed(m, first.(lifecycle := Live, errors := 0, accepted := s.accepted[e.sequence := e.payload]));
      (r, Admitted(NextExpected(r) - 1, r.windowDepth > 1, handoff))
  }

  /** `_decide`. */
  function Decide<K, T>(p: Policy, m: Merge<T>, now: int, s: Scope<T>, e: Envelope<K, T>): (Scope<T>, Decision) {
    if s.lifecycle == Closed then (s, Refuse(ScopeClosed))
    else if e.generation < s.generation then (s, Refuse(StaleGeneration))
    else if Max(0, now - e.stampedAt) > p.freshnessHorizon then (s, Refuse(Expired))
    else if e.generation > s.generation then
      Ordered(p, m, Handoff(s, e.generation), e, Some((s.generation, e.generation)))
    else Ordered(p, m, s, e, None)
  }

  // ----- the keyed core -----

  datatype Core<K, T> = Core(scopes: map<K, Scope<T>>, now: int)

  datatype Event<K, T> =
    | Admit(envelope: Envelope<K, T>)
    | Open(key: K, generation: int)
    | Suspend(key: K)
    | Reconnect(key: K, generation: int)
    | Close(key: K)
    | Drain(key: K)
    | Fail(key: K)
    | Tick(at: int)

  function Opened<T>(s: Scope<T>, generation: int): Scope<T> {
    if s.lifecycle == Closed then NewScope(generation)
    else
      var woken := s.(lifecycle := LiveOrOpening(s));
      if generation > s.generation then Restarted(woken, generation) else woken
  }

  function Reconnected<T>(s: Scope<T>, generation: int): Scope<T> {
    var fenced := if generation > s.generation then Handoff(s, generation) else s;
    fenced.(lifecycle := LiveOrOpening(fenced), errors := 0)
  }

  function SuspendedScope<T>(s: Scope<T>): Scope<T> {
    if s.lifecycle == Suspended || s.lifecycle == Closed then s else s.(lifecycle := Suspended)
  }

  /** A closed scope keeps its watermark; what it still held back is given up. */
  function ClosedScope<T>(s: Scope<T>): Scope<T> {
    if s.lifecycle == Closed then s
    else
      Cleared(s).(lifecycle := Closed, pending := map[], errors := 0,
                  accepted := map n | n in s.accepted && n < NextExpected(s) :: s.accepted[n])
  }

  function Drained<T>(s: Scope<T>): Scope<T> {
    if s.window.None? then s else Cleared(s).(drains := s.drains + [s.folded])
  }

  function ScopeOr<K, T>(c: Core<K, T>, k: K, generation: int): Scope<T> {
    if k in c.scopes then c.scopes[k] else NewScope(generation)
  }

  /** `admit`: a refused envelope leaves no new scope behind. */
  function Admitting<K, T>(p: Policy, m: Merge<T>, c: Core<K, T>, e: Envelope<K, T>): (Core<K, T>, Decision) {
    var r := Decide(p, m, c.now, ScopeOr(c, e.key, e.generation), e);
    if e.key !in c.scopes && (r.1.Refuse? || r.1.Blocked?) then (c, r.1)
    else (c.(scopes := c.scopes[e.key := r.0]), r.1)
  }

  function Step<K, T>(p: Policy, m: Merge<T>, c: Core<K, T>, e: Event<K, T>): Core<K, T> {
    match e
    case Admit(envelope) => Admitting(p, m, c, envelope).0
    case Open(k, g) => c.(scopes := c.scopes[k := if k in c.scopes then Opened(c.scopes[k], g) else NewScope(g)])
    case Suspend(k) => if k in c.scopes then c.(scopes := c.scopes[k := SuspendedScope(c.scopes[k])]) else c
    case Reconnect(k, g) => c.(scopes := c.scopes[k := Reconnected(ScopeOr(c, k, g), g)])
    case Close(k) => if k in c.scopes then c.(scopes := c.scopes[k := ClosedScope(c.scopes[k])]) else c
    case Drain(k) => if k in c.scopes then c.(scopes := c.scopes[k := Drained(c.scopes[k])]) else c
    case Fail(k) => c.(scopes := c.scopes[k := var s := ScopeOr(c, k, 0); s.(errors := s.errors + 1)])
    case Tick(at) => c.(now := at)
  }

  function Run<K, T>(p: Policy, m: Merge<T>, c: Core<K, T>, es: seq<Event<K, T>>): Core<K, T>
    decreases |es|
  {
    if es == [] then c else Run(p, m, Step(p, m, c, es[0]), es[1..])
  }

  // ----- folds -----

  /** The left fold of a run of payloads, absent for the empty run. */
  function Fold<T>(m: Merge<T>, s: seq<T>): Option<T>
    decreases |s|
  {
    if s == [] then None
    else
      var front := Fold(m, s[..|s| - 1]);
      Some(if front.None? then s[|s| - 1] else m(front.value, s[|s| - 1]))
  }

  ghost predicate Associative<T(!new)>(m: Merge<T>) {
    forall a, b, c :: m(m(a, b), c) == m(a, m(b, c))
  }

  lemma {:induction false} FoldSnoc<T>(m: Merge<T>, s: seq<T>, x: T)
    ensures Fold(m, s + [x]) == Some(if s == [] then x else m(Fold(m, s).value, x))
    ensures s != [] ==> Fold(m, s).Some?
  {
    assert (s + [x])[..|s|] == s;
  }

  lemma {:induction false} FoldEmpty<T>(m: Merge<T>, s: seq<T>)
    ensures Fold(m, s).None? <==> s == []
  {
  }

  /** Folding a concatenation is merging the two folds. */
  lemma {:induction false} FoldConcat<T(!new)>(m: Merge<T>, a: seq<T>, b: seq<T>)
    requires Associative(m) && a != [] && b != []
    ensures Fold(m, a).Some? && Fold(m, b).Some?
    ensures Fold(m, a + b) == Some(m(Fold(m, a).value, Fold(m, b).value))
    decreases |b|
  {
    var x := b[|b| - 1];
    var front := b[..|b| - 1];
    assert b == front + [x] && a + b == (a + front) + [x];
    FoldSnoc(m, a[..|a| - 1], a[|a| - 1]);
    assert a == a[..|a| - 1] + [a[|a| - 1]];
    FoldSnoc(m, front, x);
    FoldSnoc(m, a + front, x);
    if front == [] {
      assert a + front == a;
    } else {
      FoldConcat(m, a, front);
    }
  }

  // ----- what every reachable scope satisfies -----

  /** `0 .. expected - 1` were delivered, each once and in order, with the accepted payloads. */
  ghost predicate InOrder<T>(delivered: seq<Item<T>>, accepted: map<int, T>, expected: nat) {
    && |delivered| == expected
    && (forall i :: 0 <= i < |delivered| ==>
          delivered[i].sequence == i && i in accepted && accepted[i] == delivered[i].payload)
  }

  /** The buffer holds every other accepted payload, none below `from`. */
  ghost predicate Waiting<T>(pending: map<int, Held<T>>, accepted: map<int, T>, expected: nat, from: nat) {
    && (forall n :: n in pending ==> n >= from && n in accepted && accepted[n] == pending[n].payload)
    && (forall n :: n in accepted ==> 0 <= n < expected || n in pending)
  }

  ghost predicate Windowed<T>(m: Merge<T>, window: Option<T>, depth: nat, folded: seq<T>) {
    window == Fold(m, folded) && depth == |folded|
  }

  predicate Filled<T>(runs: seq<seq<T>>) {
    forall i :: 0 <= i < |runs| ==> |runs[i]| > 0
  }

  /** The sequences delivered in the current generation are exactly `0 .. delivered_through`,
      each once and in order, and each carries the payload accepted under its number; the
      reorder buffer holds the other accepted ones, all beyond a gap, within its bound;
      window and depth are the fold and the number of payloads since the last clear. */
  ghost predicate Sound<T>(p: Policy, m: Merge<T>, s: Scope<T>) {
    && InOrder(s.delivered, s.accepted, NextExpected(s))
    && Waiting(s.pending, s.accepted, NextExpected(s), NextExpected(s) + 1)
    && |s.pending| <= p.reorderWindow
    && Windowed(m, s.window, s.windowDepth, s.folded)
    && Filled(s.drains)
    && (s.lifecycle == Opening ==> s.deliveredThrough.None?)
    && (s.lifecycle == Closed ==> s.pending == map[] && s.window.None?)
  }

  /** What holds inside the flush loop, where the next expected payload may be waiting. */
  ghost predicate Flushing<T>(p: Policy, m: Merge<T>, s: Scope<T>) {
    && InOrder(s.delivered, s.accepted, NextExpected(s))
    && Waiting(s.pending, s.accepted, NextExpected(s), NextExpected(s))
    && |s.pending| <= p.reorderWindow
    && Windowed(m, s.window, s.windowDepth, s.folded)
    && Filled(s.drains)
    && s.lifecycle == Live
  }

  lemma {:induction false} WindowGrows<T>(m: Merge<T>, window: Option<T>, depth: nat, folded: seq<T>, x: T)
    requires Windowed(m, window, depth, folded)
    ensures Windowed(m, Some(if window.Some? then m(window.value, x) else x), depth + 1, folded + [x])
  {
    FoldSnoc(m, folded, x);
  }

  lemma {:induction false} WindowStarts<T>(m: Merge<T>)
    ensures Windowed(m, None, 0, [])
  {
  }

  lemma {:induction false} WindowEmpty<T>(m: Merge<T>, window: Option<T>, depth: nat, folded: seq<T>)
    requires Windowed(m, window, depth, folded)
    ensures window.None? <==> folded == []
  {
  }

  lemma {:induction false} FlushStep<T>(p: Policy, m: Merge<T>, s: Scope<T>)
    requires Flushing(p, m, s) && NextExpected(s) in s.pending
    ensures var n := NextExpected(s);
            Flushing(p, m, Delivered(m, s.(pending := s.pending - {n}), Item(n, s.pending[n].payload),
                s.pending[n].stampedAt))
  {
    hide Windowed;
    var n := NextExpected(s);
    WindowGrows(m, s.window, s.windowDepth, s.folded, s.pending[n].payload);
    var rest := s.pending - {n};
    assert rest.Keys == s.pending.Keys - {n};
    assert |rest| == |s.pending| - 1;
  }

  lemma {:induction false} FlushedSound<T>(p: Policy, m: Merge<T>, s: Scope<T>)
    requires Flushing(p, m, s)
    ensures Sound(p, m, Flushed(m, s))
    decreases |s.pending|
  {
    hide Windowed, InOrder;
    var n := NextExpected(s);
    if n in s.pending {
      FlushStep(p, m, s);
      hide Flushing;
      FlushedSound(p, m, Delivered(m, s.(pending := s.pending - {n}), Item(n, s.pending[n].payload),
          s.pending[n].stampedAt));
    }
  }

  /** Taking the expected payload in opens the flush. */
  lemma {:induction false} FirstFlushes<T>(p: Policy, m: Merge<T>, s: Scope<T>, payload: T, stampedAt: int)
    requires Sound(p, m, s)
    ensures Flushing(p, m, Delivered(m, s, Item(NextExpected(s), payload), stampedAt)
                           .(lifecycle := Live, errors := 0, accepted := s.accepted[NextExpected(s) := payload]))
  {
    hide Windowed;
    WindowGrows(m, s.window, s.windowDepth, s.folded, payload);
  }

  lemma {:induction false} OrderedSound<K, T>(p: Policy, m: Merge<T>, s: Scope<T>, e: Envelope<K, T>,
      handoff: Option<(int, int)>)
    requires Sound(p, m, s) && s.lifecycle != Closed
    ensures Sound(p, m, Ordered(p, m, s, e, handoff).0)
  {
    hide Windowed, Flushed;
    WindowStarts(m);
    if e.sequence == NextExpected(s) {
      var room := if s.windowDepth >= p.highWater && p.overflow == DropOldest then Cleared(s) else s;
      FirstFlushes(p, m, room, e.payload, e.stampedAt);
      hide Flushing;
      FlushedSound(p, m, Delivered(m, room, Item(e.sequence, e.payload), e.stampedAt)
                         .(lifecycle := Live, errors := 0, accepted := s.accepted[e.sequence := e.payload]));
    }
  }

  lemma {:induction false} DecideSound<K, T>(p: Policy, m: Merge<T>, now: int, s: Scope<T>, e: Envelope<K, T>)
    requires Sound(p, m, s)
    ensures Sound(p, m, Decide(p, m, now, s, e).0)
  {
    hide Ordered, Windowed;
    WindowStarts(m);
    if s.lifecycle != Closed {
      OrderedSound(p, m, s, e, None);
      OrderedSound(p, m, Handoff(s, e.generation), e, Some((s.generation, e.generation)));
    }
  }

  lemma {:induction false} LifecycleSound<T>(p: Policy, m: Merge<T>, s: Scope<T>, g: int)
    requires Sound(p, m, s)
    ensures Sound(p, m, Opened(s, g)) && Sound(p, m, Reconnected(s, g)) && Sound(p, m, SuspendedScope(s))
    ensures Sound(p, m, s.(errors := s.errors + 1))
  {
    hide Windowed;
    WindowStarts(m);
  }

  lemma {:induction false} DrainedSound<T>(p: Policy, m: Merge<T>, s: Scope<T>)
    requires Sound(p, m, s)
    ensures Sound(p, m, Drained(s))
  {
    hide Windowed, InOrder, Waiting;
    WindowStarts(m);
    WindowEmpty(m, s.window, s.windowDepth, s.folded);
  }

  lemma {:induction false} ClosedSound<T>(p: Policy, m: Merge<T>, s: Scope<T>)
    requires Sound(p, m, s)
    ensures Sound(p, m, ClosedScope(s))
  {
    hide Windowed;
    WindowStarts(m);
  }

  ghost predicate AllSound<K, T>(p: Policy, m: Merge<T>, c: Core<K, T>) {
    forall k :: k in c.scopes ==> Sound(p, m, c.scopes[k])
  }

  function Target<K, T>(e: Event<K, T>): Option<K> {
    match e
    case Admit(envelope) => Some(envelope.key)
    case Tick(_) => None
    case _ => Some(e.key)
  }

  /** A step changes at most the scope it names. */
  lemma {:induction false} StepElsewhere<K, T>(p: Policy, m: Merge<T>, c: Core<K, T>, e: Event<K, T>, k: K)
    requires Target(e) != Some(k)
    ensures k in Step(p, m, c, e).scopes <==> k in c.scopes
    ensures k in c.scopes ==> Step(p, m, c, e).scopes[k] == c.scopes[k]
  {
    hide Decide;
  }

  lemma {:induction false} StepSound<K, T>(p: Policy, m: Merge<T>, c: Core<K, T>, e: Event<K, T>)
    requires AllSound(p, m, c)
    ensures AllSound(p, m, Step(p, m, c, e))
  {
    hide Sound, Decide, Opened, Reconnected, SuspendedScope, Drained, ClosedScope, NewScope;
    var c' := Step(p, m, c, e);
    forall k | k in c'.scopes ensures Sound(p, m, c'.scopes[k]) {
      if Target(e) != Some(k) {
        StepElsewhere(p, m, c, e, k);
      } else {
        TargetSound(p, m, c, e, k);
      }
    }
  }

  lemma {:induction false} TargetSound<K, T>(p: Policy, m: Merge<T>, c: Core<K, T>, e: Event<K, T>, k: K)
    requires Target(e) == Some(k) && (k in c.scopes ==> Sound(p, m, c.scopes[k]))
    ensures k in Step(p, m, c, e).scopes ==> Sound(p, m, Step(p, m, c, e).scopes[k])
  {
    hide Sound, Decide, Opened, Reconnected, SuspendedScope, Drained, ClosedScope, NewScope;
    var g := if e.Admit? then e.envelope.generation else if e.Open? || e.Reconnect? then e.generation else 0;
    FreshSound(p, m, g);
    var s := ScopeOr(c, k, g);
    LifecycleSound(p, m, s, g);
    DrainedSound(p, m, s);
    ClosedSound(p, m, s);
    if e.Admit? {
      DecideSound(p, m, c.now, s, e.envelope);
    }
  }

  lemma {:induction false} FreshSound<T>(p: Policy, m: Merge<T>, g: int)
    ensures Sound(p, m, NewScope(g))
  {
  }

  /** Every run keeps every scope sound. */
  lemma {:induction false} RunSound<K, T>(p: Policy, m: Merge<T>, c: Core<K, T>, es: seq<Event<K, T>>)
    requires AllSound(p, m, c)
    ensures AllSound(p, m, Run(p, m, c, es))
    decreases |es|
  {
    hide AllSound, Step;
    if es != [] {
      StepSound(p, m, c, es[0]);
      RunSound(p, m, Step(p, m, c, es[0]), es[1..]);
    }
  }

  /** Nothing accepted is withheld without a gap: the watermark has passed `n` exactly when
      everything up to `n` was accepted. */
  lemma {:induction false} WatermarkIff<T>(p: Policy, m: Merge<T>, s: Scope<T>, n: nat)
    requires Sound(p, m, s)
    ensures n < NextExpected(s) <==> forall i :: 0 <= i <= n ==> i in s.accepted
  {
    hide Windowed;
    if n < NextExpected(s) {
      forall i | 0 <= i <= n ensures i in s.accepted {
        assert s.delivered[i].sequence == i;
      }
    } else {
      var next := NextExpected(s);
      assert next in s.accepted ==> next in s.pending;
      assert next !in s.accepted;
    }
  }
}
