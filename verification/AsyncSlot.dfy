/** The async slot of `src/lazily/async_slot.py` as interleaved steps: callers of `get_async`
    and the drives that compute run up to their next await. */
module AsyncSlots {
  import opened Wrappers

  datatype SlotState = Empty | Computing | Resolved | Failed

  // ----- the kernel -----

  /** `StepSlot`. A value of `None` is Python's, whether a computation returned it or none was set. */
  datatype StepSlot<T> = StepSlot(state: SlotState, revision: nat, computeRev: Option<nat>, value: Option<T>)

  datatype KernelEvent<T> =
    | KStart
    | KCompleteOk(rev: nat, value: Option<T>)
    | KCompleteErr(rev: nat)
    | KInvalidate
    | KRetry
    | KHardClear

  /** `step`. */
  function KernelStep<T>(s: StepSlot<T>, e: KernelEvent<T>): StepSlot<T> {
    match e
    case KStart => if s.state == Empty then StepSlot(Computing, s.revision, Some(s.revision), None) else s
    case KCompleteOk(rev, value) =>
      if s.state == Computing && s.computeRev == Some(rev) then StepSlot(Resolved, s.revision, None, value) else s
    case KCompleteErr(rev) =>
      if s.state == Computing && s.computeRev == Some(rev) then StepSlot(Failed, s.revision, None, None) else s
    case KInvalidate => if s.state == Failed then s else StepSlot(Computing, s.revision + 1, Some(s.revision + 1), None)
    case KRetry => if s.state == Failed then StepSlot(Computing, s.revision, Some(s.revision), None) else s
    case KHardClear => StepSlot(Empty, s.revision + 1, None, None)
  }

  /** `is_well_formed`. */
  predicate WellFormed<T>(s: StepSlot<T>) {
    match s.state
    case Empty => s.computeRev.None? && s.value.None?
    case Computing => s.computeRev.Some? && s.value.None?
    case Resolved => s.computeRev.None? && s.value.Some?
    case Failed => s.computeRev.None? && s.value.None?
  }

  /** The kernel keeps a slot well formed unless it accepts a completion that carries `None`. */
  lemma {:induction false} KernelStaysWellFormedIff<T>(s: StepSlot<T>, e: KernelEvent<T>)
    requires WellFormed(s)
    ensures WellFormed(KernelStep(s, e))
            <==> !(e.KCompleteOk? && e.value.None? && s.state == Computing && s.computeRev == Some(e.rev))
    ensures KernelStep(s, e).revision >= s.revision
  {
  }

  /** Which events move a slot at all. */
  lemma {:induction false} KernelMovesIff<T>(s: StepSlot<T>, e: KernelEvent<T>)
    requires WellFormed(s)
    ensures KernelStep(s, e) != s
            <==> (match e
                  case KStart => s.state == Empty
                  case KCompleteOk(rev, _) => s.state == Computing && s.computeRev == Some(rev)
                  case KCompleteErr(rev) => s.state == Computing && s.computeRev == Some(rev)
                  case KInvalidate => s.state != Failed
                  case KRetry => s.state == Failed
                  case KHardClear => true)
    ensures KernelStep(s, e).revision
            == s.revision + (if e.KHardClear? || (e.KInvalidate? && s.state != Failed) then 1 else 0)
  {
  }

  // ----- the runtime -----

  /** How a computation ends; it may return `None`. */
  datatype Outcome<T> = Value(value: Option<T>) | Error(error: nat)

  /** A drive and the future it resolves share a number. `spawnedAt` is the revision of the
      slot when it was spawned, `rev` the one it saw when it first ran. */
  datatype Drive<T> =
    | Queued(spawnedAt: nat)
    | Underway(spawnedAt: nat, rev: nat)
    | Done(spawnedAt: nat, outcome: Outcome<T>)

  /** A future: open, resolved by a current completion, failed by one, or woken with the
      empty sentinel by a stale one. */
  datatype Future<T> = Open | Fulfilled(value: Option<T>) | Rejected(error: nat) | Woken

  /** A caller of `get_async`. */
  datatype Caller<T> = Waits(future: nat) | Returned(value: Option<T>) | Raised(error: nat)

  datatype Slot<T> = Slot(
    state: SlotState,
    revision: nat,
    computeRev: Option<nat>,
    value: Option<T>,
    error: Option<nat>,
    future: Option<nat>,
    drives: seq<Drive<T>>,
    futures: seq<Future<T>>,
    callers: map<nat, Caller<T>>
  )

  function FreshSlot<T>(): Slot<T> {
    Slot(Empty, 0, None, None, None, None, [], [], map[])
  }

  datatype Event<T> =
    | Call(caller: nat)
    | Wake(caller: nat)
    | DriveStarts(drive: nat)
    | DriveEnds(drive: nat, outcome: Outcome<T>)
    | Invalidate
    | HardClear

  predicate Enabled<T>(s: Slot<T>, e: Event<T>) {
    match e
    case Call(c) => c !in s.callers
    case Wake(c) => c in s.callers && s.callers[c].Waits? && s.callers[c].future < |s.futures|
        && !s.futures[s.callers[c].future].Open?
    case DriveStarts(d) => d < |s.drives| && s.drives[d].Queued?
    case DriveEnds(d, _) => d < |s.drives| && d < |s.futures| && s.drives[d].Underway?
    case _ => true
  }

  /** `_spawn`. */
  function Spawned<T>(s: Slot<T>): Slot<T> {
    s.(state := Computing, computeRev := Some(s.revision), value := None, future := Some(|s.futures|),
       futures := s.futures + [Open], drives := s.drives + [Queued(s.revision)])
  }

  /** One round of the `get_async` loop, up to the await. */
  function Resolves<T>(s: Slot<T>, c: nat): Slot<T> {
    if s.state == Resolved then s.(callers := s.callers[c := Returned(s.value)])
    else
      var t := if s.state == Failed || s.state == Empty || s.future.None? then Spawned(s) else s;
      t.(callers := t.callers[c := Waits(t.future.value)])
  }

  /** The end of `_drive`. */
  function Completed<T>(s: Slot<T>, d: nat, outcome: Outcome<T>): Slot<T>
    requires d < |s.drives| && d < |s.futures| && s.drives[d].Underway?
  {
    var t := s.(drives := s.drives[d := Done(s.drives[d].spawnedAt, outcome)]);
    if s.computeRev == Some(s.drives[d].rev) && s.future == Some(d) then
      match outcome
      case Value(v) =>
        t.(state := Resolved, computeRev := None, value := v,
           futures := if s.futures[d].Open? then s.futures[d := Fulfilled(v)] else s.futures)
      case Error(x) =>
        t.(state := Failed, computeRev := None, error := Some(x),
           futures := if s.futures[d].Open? then s.futures[d := Rejected(x)] else s.futures)
    else if s.futures[d].Open? then t.(futures := s.futures[d := Woken])
    else t
  }

  /** `invalidate`. */
  function Invalidated<T>(s: Slot<T>): Slot<T> {
    var t := s.(revision := s.revision + 1);
    if s.state == Failed then t
    else t.(state := Computing, computeRev := Some(t.revision), value := None, future := None)
  }

  function Do<T>(s: Slot<T>, e: Event<T>): Slot<T>
    requires Enabled(s, e)
  {
    match e
    case Call(c) => Resolves(s, c)
    case Wake(c) =>
      (match s.futures[s.callers[c].future]
       case Rejected(x) => s.(callers := s.callers[c := Raised(x)])
       case _ => Resolves(s, c))
    case DriveStarts(d) => s.(drives := s.drives[d := Underway(s.drives[d].spawnedAt, s.revision)])
    case DriveEnds(d, outcome) => Completed(s, d, outcome)
    case Invalidate => Invalidated(s)
    case HardClear => s.(state := Empty, revision := s.revision + 1, computeRev := None, value := None, error := None,
        future := None)
  }

  ghost predicate Runs<T(!new)>(s: Slot<T>, es: seq<Event<T>>)
    decreases |es|
  {
    es == [] || (Enabled(s, es[0]) && Runs(Do(s, es[0]), es[1..]))
  }

  ghost function After<T(!new)>(s: Slot<T>, es: seq<Event<T>>): Slot<T>
    requires Runs(s, es)
    decreases |es|
  {
    if es == [] then s else After(Do(s, es[0]), es[1..])
  }

  // ----- what every interleaving keeps -----

  /** A future is open exactly while its drive has not ended. */
  ghost predicate Paired<T>(drives: seq<Drive<T>>, futures: seq<Future<T>>) {
    && |drives| == |futures|
    && forall d :: 0 <= d < |drives| ==> (futures[d].Open? <==> !drives[d].Done?)
  }

  /** Drives were spawned at or before the revision they saw, and none after the slot's;
      one of the slot's own revision that has not ended is current. */
  ghost predicate Dated<T>(drives: seq<Drive<T>>, revision: nat, future: Option<nat>) {
    forall d :: 0 <= d < |drives| ==>
      drives[d].spawnedAt <= revision
      && (drives[d].Underway? ==> drives[d].spawnedAt <= drives[d].rev <= revision)
      && (drives[d].spawnedAt == revision && !drives[d].Done? ==> future == Some(d))
  }

  ghost predicate Consistent<T>(s: Slot<T>) {
    && (s.future.Some? ==> s.future.value < |s.drives|)
    && (match s.state
        case Empty => s.computeRev.None? && s.value.None? && s.future.None? && s.error.None?
        case Computing =>
          s.computeRev == Some(s.revision) && s.value.None?
          && (s.future.Some? ==> !s.drives[s.future.value].Done? && s.drives[s.future.value].spawnedAt == s.revision)
        case Resolved =>
          s.computeRev.None? && s.future.Some? && s.drives[s.future.value] == Done(s.revision, Value(s.value))
        case Failed =>
          s.computeRev.None? && s.value.None? && s.future.Some? && s.error.Some?
          && s.drives[s.future.value].Done? && s.drives[s.future.value].outcome == Error(s.error.value))
  }

  ghost predicate Sound<T>(s: Slot<T>) {
    && Paired(s.drives, s.futures) && Dated(s.drives, s.revision, s.future) && Consistent(s)
    && (forall c :: c in s.callers && s.callers[c].Waits? ==> s.callers[c].future < |s.futures|)
  }

  lemma {:induction false} SpawnedSound<T>(s: Slot<T>)
    requires Sound(s) && (s.state == Failed || s.state == Empty || s.future.None?) && s.state != Resolved
    ensures Sound(Spawned(s))
  {
    var t := Spawned(s);
    forall d | 0 <= d < |s.drives| ensures t.drives[d] == s.drives[d] && t.futures[d] == s.futures[d] {
    }
    forall d | 0 <= d < |s.drives| && s.drives[d].spawnedAt == s.revision ensures s.drives[d].Done? {
      if s.state == Failed && s.future == Some(d) { assert s.drives[d].Done?; }
    }
  }

  lemma {:induction false} ResolvesSound<T>(s: Slot<T>, c: nat)
    requires Sound(s)
    ensures Sound(Resolves(s, c))
  {
    if !(s.state == Resolved) && (s.state == Failed || s.state == Empty || s.future.None?) {
      SpawnedSound(s);
    }
  }

  lemma {:induction false} CompletedSound<T>(s: Slot<T>, d: nat, outcome: Outcome<T>)
    requires Sound(s) && Enabled(s, DriveEnds(d, outcome))
    ensures Sound(Completed(s, d, outcome))
  {
  }

  lemma {:induction false} StepSound<T>(s: Slot<T>, e: Event<T>)
    requires Sound(s) && Enabled(s, e)
    ensures Sound(Do(s, e))
  {
    match e
    case Call(c) => ResolvesSound(s, c);
    case Wake(c) => ResolvesSound(s, c);
    case DriveEnds(d, outcome) => CompletedSound(s, d, outcome);
    case _ =>
  }

  lemma {:induction false} RunSound<T(!new)>(s: Slot<T>, es: seq<Event<T>>)
    requires Sound(s) && Runs(s, es)
    ensures Sound(After(s, es))
    decreases |es|
  {
    hide Sound, Do;
    if es != [] {
      StepSound(s, es[0]);
      RunSound(Do(s, es[0]), es[1..]);
    }
  }

  // ----- the guarantees -----

  /** A resolved slot holds the value of a computation spawned after the last invalidation
      and the last hard clear. */
  lemma {:induction false} ResolvedIsFresh<T(!new)>(es: seq<Event<T>>)
    requires Runs(FreshSlot<T>(), es) && After(FreshSlot<T>(), es).state == Resolved
    ensures var s := After(FreshSlot<T>(), es);
            exists d :: 0 <= d < |s.drives| && s.drives[d] == Done(s.revision, Value(s.value))
  {
    RunSound(FreshSlot<T>(), es);
    hide Runs, After;
    var s := After(FreshSlot<T>(), es);
    assert s.drives[s.future.value] == Done(s.revision, Value(s.value));
  }

  /** The end of a drive moves the slot exactly when the drive is current: the value is
      published, or the error; a drive whose future was replaced changes nothing but its
      own future. */
  lemma {:induction false} CompletionPublishesIff<T>(s: Slot<T>, d: nat, outcome: Outcome<T>)
    requires Sound(s) && Enabled(s, DriveEnds(d, outcome))
    ensures var t := Completed(s, d, outcome);
            && (s.future != Some(d) <==>
                  (t.state, t.revision, t.computeRev, t.value, t.error, t.future)
                      == (s.state, s.revision, s.computeRev, s.value, s.error, s.future))
            && (s.future == Some(d) && outcome.Value? ==>
                  t.state == Resolved && t.value == outcome.value && t.futures[d] == Fulfilled(outcome.value))
            && (s.future == Some(d) && outcome.Error? ==>
                  t.state == Failed && t.error == Some(outcome.error) && t.futures[d] == Rejected(outcome.error))
            && !t.futures[d].Open?
            && (s.future != Some(d) ==> t.futures[d] == Woken)
  {
  }

  /** At most one drive that has not ended belongs to the current revision. */
  lemma {:induction false} OneDrivePerRevision<T(!new)>(es: seq<Event<T>>, i: nat, j: nat)
    requires Runs(FreshSlot<T>(), es)
    requires var s := After(FreshSlot<T>(), es);
             i < |s.drives| && j < |s.drives| && !s.drives[i].Done? && !s.drives[j].Done?
             && s.drives[i].spawnedAt == s.revision && s.drives[j].spawnedAt == s.revision
    ensures i == j
  {
    RunSound(FreshSlot<T>(), es);
    hide Runs, After;
  }

  /** No caller is left behind: a future someone waits for is open only while a drive that
      will resolve it has not ended. */
  lemma {:induction false} WaitersAreServed<T(!new)>(es: seq<Event<T>>, c: nat)
    requires Runs(FreshSlot<T>(), es)
    requires var s := After(FreshSlot<T>(), es); c in s.callers && s.callers[c].Waits?
    ensures var s := After(FreshSlot<T>(), es); var f := s.callers[c].future;
            f < |s.drives| && f < |s.futures| && (s.futures[f].Open? <==> !s.drives[f].Done?)
  {
    RunSound(FreshSlot<T>(), es);
    hide Runs, After;
  }

  // ----- what callers get -----

  /** A future that was fulfilled or rejected carries the outcome of its own drive. */
  ghost predicate Truthful<T>(s: Slot<T>) {
    && |s.drives| == |s.futures|
    && forall d :: 0 <= d < |s.futures| ==>
         && (s.futures[d].Fulfilled? ==> s.drives[d].Done? && s.drives[d].outcome == Value(s.futures[d].value))
         && (s.futures[d].Rejected? ==> s.drives[d].Done? && s.drives[d].outcome == Error(s.futures[d].error))
  }

  lemma {:induction false} StepTruthful<T>(s: Slot<T>, e: Event<T>)
    requires Truthful(s) && Enabled(s, e)
    ensures Truthful(Do(s, e))
  {
  }

  lemma {:induction false} RunTruthful<T(!new)>(s: Slot<T>, es: seq<Event<T>>)
    requires Truthful(s) && Runs(s, es)
    ensures Truthful(After(s, es))
    decreases |es|
  {
    hide Truthful, Do;
    if es != [] {
      StepTruthful(s, es[0]);
      RunTruthful(Do(s, es[0]), es[1..]);
    }
  }

  /** The caller is called, or the future it waited for is done. */
  predicate Turns<T>(e: Event<T>, c: nat) {
    e == Call(c) || e == Wake(c)
  }

  /** The future a caller wakes from was rejected with `x`. */
  predicate WakesRejected<T>(s: Slot<T>, e: Event<T>, c: nat, x: nat)
    requires Enabled(s, e)
  {
    e == Wake(c) && s.futures[s.callers[c].future] == Rejected(x)
  }

  /** In every reachable state: a caller returns `v` in its turn exactly when the slot is
      resolved with `v`, which a drive of the revision of that moment computed, and the future
      it waited for was not rejected. */
  lemma {:induction false} ReturnsIff<T(!new)>(es: seq<Event<T>>, e: Event<T>, c: nat, v: Option<T>)
    requires Runs(FreshSlot<T>(), es) && Enabled(After(FreshSlot<T>(), es), e) && Turns(e, c)
    ensures var s := After(FreshSlot<T>(), es); var t := Do(s, e);
            && c in t.callers
            && (t.callers[c] == Returned(v) <==>
                  s.state == Resolved && s.value == v && !(exists x :: WakesRejected(s, e, c, x)))
            && (t.callers[c] == Returned(v) ==>
                  exists d :: 0 <= d < |s.drives| && s.drives[d] == Done(s.revision, Value(v)))
  {
    var s := After(FreshSlot<T>(), es);
    if s.state == Resolved { ResolvedIsFresh(es); }
    assert e == Wake(c) && s.futures[s.callers[c].future].Rejected? ==>
             WakesRejected(s, e, c, s.futures[s.callers[c].future].error);
    hide Runs, After, Spawned;
  }

  /** It raises `x` exactly when the future it waited for was rejected with `x`, which its own
      drive ended with. */
  lemma {:induction false} RaisesIff<T(!new)>(es: seq<Event<T>>, e: Event<T>, c: nat, x: nat)
    requires Runs(FreshSlot<T>(), es) && Enabled(After(FreshSlot<T>(), es), e) && Turns(e, c)
    ensures var s := After(FreshSlot<T>(), es); var t := Do(s, e);
            && c in t.callers && (t.callers[c] == Raised(x) <==> WakesRejected(s, e, c, x))
            && (t.callers[c] == Raised(x) ==>
                  e == Wake(c)
                  && var d := s.callers[c].future;
                     d < |s.drives| && s.drives[d].Done? && s.drives[d].outcome == Error(x))
  {
    RunTruthful(FreshSlot<T>(), es);
    hide Runs, After, Spawned;
  }

  /** Otherwise it waits for an open future whose drive belongs to the current revision. */
  lemma {:induction false} WaitsIff<T(!new)>(es: seq<Event<T>>, e: Event<T>, c: nat)
    requires Runs(FreshSlot<T>(), es) && Enabled(After(FreshSlot<T>(), es), e) && Turns(e, c)
    ensures var s := After(FreshSlot<T>(), es); var t := Do(s, e);
            && c in t.callers
            && (t.callers[c].Waits? <==> s.state != Resolved && !(exists x :: WakesRejected(s, e, c, x)))
            && (t.callers[c].Waits? ==>
                  var d := t.callers[c].future;
                  t.future == Some(d) && d < |t.drives| && d < |t.futures| && t.futures[d].Open?
                  && !t.drives[d].Done? && t.drives[d].spawnedAt == t.revision)
  {
    var s := After(FreshSlot<T>(), es);
    RunSound(FreshSlot<T>(), es);
    StepSound(s, e);
    assert e == Wake(c) && s.futures[s.callers[c].future].Rejected? ==>
             WakesRejected(s, e, c, s.futures[s.callers[c].future].error);
    hide Runs, After;
  }

  /** No other step touches a caller. */
  lemma {:induction false} CallersStay<T>(s: Slot<T>, e: Event<T>, c: nat)
    requires Enabled(s, e) && !Turns(e, c)
    ensures c in Do(s, e).callers <==> c in s.callers
    ensures c in s.callers ==> Do(s, e).callers[c] == s.callers[c]
  {
  }

  // ----- the kernel and the runtime -----

  function Kernel<T>(s: Slot<T>): StepSlot<T> {
    StepSlot(s.state, s.revision, s.computeRev, s.value)
  }

  /** The kernel event a runtime step stands for, if it moves the kernel at all. */
  function Image<T>(s: Slot<T>, e: Event<T>): Option<KernelEvent<T>>
    requires Enabled(s, e)
  {
    match e
    case Call(_) => if s.state == Empty then Some(KStart) else if s.state == Failed then Some(KRetry) else None
    case Wake(c) =>
      if s.futures[s.callers[c].future].Rejected? then None
      else if s.state == Empty then Some(KStart) else if s.state == Failed then Some(KRetry) else None
    case DriveStarts(_) => None
    case DriveEnds(d, outcome) =>
      if s.future != Some(d) then None
      else if outcome.Value? then Some(KCompleteOk(s.drives[d].rev, outcome.value))
      else Some(KCompleteErr(s.drives[d].rev))
    case Invalidate => Some(KInvalidate)
    case HardClear => Some(KHardClear)
  }

  /** The runtime follows the kernel step by step, or stands still, except for one call:
      invalidating a failed slot advances the runtime's revision and not the kernel's. */
  lemma {:induction false} FollowsKernelIff<T>(s: Slot<T>, e: Event<T>)
    requires Sound(s) && Enabled(s, e)
    ensures Kernel(Do(s, e)) == (if Image(s, e).Some? then KernelStep(Kernel(s), Image(s, e).value) else Kernel(s))
            <==> !(e.Invalidate? && s.state == Failed)
  {
  }

  /** The kernel's image of a reachable slot is well formed unless the slot resolved to `None`. */
  lemma {:induction false} ImageWellFormedIff<T>(s: Slot<T>)
    requires Sound(s)
    ensures WellFormed(Kernel(s)) <==> !(s.state == Resolved && s.value.None?)
  {
  }

  /** Its revision alone does not tell a stale completion: a drive that first runs after an
      invalidation sees the new revision, and the kernel would accept what it computed;
      the runtime discards it because its future was replaced. */
  lemma {:induction false} FutureGuardsRevision<T>(v: Option<T>)
    ensures var s := Do(Do(Do(FreshSlot(), Call(0)), Invalidate), Call(1));
            var t := Do(s, DriveStarts(0));
            Enabled(t, DriveEnds(0, Value(v)))
            && KernelStep(Kernel(t), KCompleteOk(t.drives[0].rev, v)).state == Resolved
            && Do(t, DriveEnds(0, Value(v))).state == Computing
  {
  }

  // ----- the slot as the program keeps it -----

  /** Each method runs from a call or a resumption up to the next await; drives, futures and
      callers stand for the event loop. */
  class AsyncSlot<T> {
    var state: SlotState
    var revision: nat
    var computeRev: Option<nat>
    var value: Option<T>
    var error: Option<nat>
    var future: Option<nat>
    var drives: seq<Drive<T>>
    var futures: seq<Future<T>>
    var callers: map<nat, Caller<T>>

    ghost function View(): Slot<T>
      reads this
    {
      Slot(state, revision, computeRev, value, error, future, drives, futures, callers)
    }

    constructor ()
      ensures View() == FreshSlot() && Sound(View())
    {
      state, revision, computeRev, value, error, future := Empty, 0, None, None, None, None;
      drives, futures, callers := [], [], map[];
    }

    /** One round of the `get_async` loop. */
    method Round(c: nat)
      requires Sound(View())
      modifies this
      ensures View() == Resolves(old(View()), c)
    {
      if state == Resolved {
        callers := callers[c := Returned(value)];
        return;
      }
      if state == Failed {
        Spawn();
      } else if state == Empty || future.None? {
        Spawn();
      }
      callers := callers[c := Waits(future.value)];
    }

    /** `get_async`, from its call. */
    method GetAsync(c: nat)
      requires Sound(View()) && Enabled(View(), Call(c))
      modifies this
      ensures View() == Do(old(View()), Call(c)) && Sound(View())
    {
      StepSound(View(), Call(c));
      Round(c);
    }

    /** `get_async`, when the future it awaits is done. */
    method GetAsyncContinue(c: nat)
      requires Sound(View()) && Enabled(View(), Wake(c))
      modifies this
      ensures View() == Do(old(View()), Wake(c)) && Sound(View())
    {
      StepSound(View(), Wake(c));
      var f := futures[callers[c].future];
      if f.Rejected? {
        callers := callers[c := Raised(f.error)];
        return;
      }
      Round(c);
    }

    /** `_spawn`. */
    method Spawn()
      modifies this
      ensures View() == Spawned(old(View()))
    {
      state := Computing;
      computeRev := Some(revision);
      value := None;
      future := Some(|futures|);
      futures, drives := futures + [Open], drives + [Queued(revision)];
    }

    /** `_drive`, when its task first runs. */
    method DriveStart(d: nat)
      requires Sound(View()) && Enabled(View(), DriveStarts(d))
      modifies this
      ensures View() == Do(old(View()), DriveStarts(d)) && Sound(View())
    {
      StepSound(View(), DriveStarts(d));
      drives := drives[d := Underway(drives[d].spawnedAt, revision)];
    }

    /** `_drive`, when the computation has ended. */
    method DriveEnd(d: nat, outcome: Outcome<T>)
      requires Sound(View()) && Enabled(View(), DriveEnds(d, outcome))
      modifies this
      ensures View() == Do(old(View()), DriveEnds(d, outcome)) && Sound(View())
    {
      StepSound(View(), DriveEnds(d, outcome));
      var rev := drives[d].rev;
      drives := drives[d := Done(drives[d].spawnedAt, outcome)];
      var current := computeRev == Some(rev) && future == Some(d);
      if current {
        computeRev := None;
        if outcome.Error? {
          state, error := Failed, Some(outcome.error);
        } else {
          state, value := Resolved, outcome.value;
        }
      }
      if futures[d].Open? {
        futures := futures[d := if !current then Woken else if outcome.Error? then Rejected(outcome.error)
            else Fulfilled(outcome.value)];
      }
    }

    method Invalidate()
      requires Sound(View())
      modifies this
      ensures View() == Do(old(View()), Event.Invalidate) && Sound(View())
    {
      StepSound(View(), Event.Invalidate);
      revision := revision + 1;
      if state == Failed {
        return;
      }
      state, computeRev, value, future := Computing, Some(revision), None, None;
    }

    method HardClear()
      requires Sound(View())
      modifies this
      ensures View() == Do(old(View()), Event.HardClear) && Sound(View())
    {
      StepSound(View(), Event.HardClear);
      revision := revision + 1;
      state, computeRev, value, error, future := Empty, None, None, None, None;
    }
  }
}
