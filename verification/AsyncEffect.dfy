/** The async effect of `src/lazily/async_effect.py` as interleaved steps: every call and
    every resumption runs up to its next await. */
module AsyncEffects {
  import opened Wrappers

  datatype EffectState = Idle | Scheduled | CleanupRunning | CleanupRunningScheduled | Disposed

  datatype KernelEvent = KInvalidate | KFire(hasCleanup: bool) | KCleanupDone | KDispose

  /** The transition kernel, `step`. */
  function KernelStep(s: EffectState, e: KernelEvent): EffectState {
    match e
    case KInvalidate =>
      if s == Idle || s == Scheduled then Scheduled
      else if s == CleanupRunning || s == CleanupRunningScheduled then CleanupRunningScheduled
      else Disposed
    case KFire(hasCleanup) => if s == Scheduled then if hasCleanup then CleanupRunning else Idle else s
    case KCleanupDone => if s == CleanupRunning then Idle else if s == CleanupRunningScheduled then Scheduled else s
    case KDispose => Disposed
  }

  /** How often a cleanup was started and how often it ended. */
  datatype Cleanup = Cleanup(starts: nat, ends: nat)

  /** Where a `flush` call stands. */
  datatype Flush = AwaitsTask(cleanup: nat) | InBody | LastCleanup(cleanup: nat) | FlushDone

  /** Where a `dispose` call stands. */
  datatype Dispose = AwaitsRunning(cleanup: nat) | OwnCleanup(cleanup: nat) | DisposeDone

  /** The fields of the effect, its suspended calls, and what happened: the cleanups that
      bodies returned, numbered in order, and how many bodies started. A cleanup task is
      known by its cleanup. */
  datatype Effect = Effect(
    state: EffectState,
    pending: bool,
    cleanup: Option<nat>,
    task: Option<nat>,
    flushes: map<nat, Flush>,
    disposes: map<nat, Dispose>,
    cleanups: seq<Cleanup>,
    bodies: nat
  )

  const FRESH := Effect(Idle, false, None, None, map[], map[], [], 0)

  datatype Event =
    | Invalidate
    | FlushCall(id: nat)
    | FlushResumes(id: nat)
    | BodyReturns(id: nat, withCleanup: bool)
    | DisposeCall(id: nat)
    | DisposeResumes(id: nat)
    | CleanupStarts(cleanup: nat)
    | CleanupEnds(cleanup: nat)

  predicate Unstarted(cs: seq<Cleanup>, c: int) {
    0 <= c < |cs| && cs[c] == Cleanup(0, 0)
  }

  predicate Running(cs: seq<Cleanup>, c: int) {
    0 <= c < |cs| && cs[c] == Cleanup(1, 0)
  }

  predicate Ended(cs: seq<Cleanup>, c: int) {
    0 <= c < |cs| && cs[c] == Cleanup(1, 1)
  }

  function Started(cs: seq<Cleanup>, c: nat): seq<Cleanup> {
    if c < |cs| then cs[c := cs[c].(starts := cs[c].starts + 1)] else cs
  }

  function Finished(cs: seq<Cleanup>, c: nat): seq<Cleanup> {
    if c < |cs| then cs[c := cs[c].(ends := cs[c].ends + 1)] else cs
  }

  /** `invalidate`. */
  function Invalidated(e: Effect): Effect {
    if e.state == Disposed then e
    else e.(state := if e.state == CleanupRunning then CleanupRunningScheduled else Scheduled, pending := true)
  }

  function StartBody(e: Effect, id: nat): Effect {
    e.(flushes := e.flushes[id := InBody], bodies := e.bodies + 1)
  }

  /** The head of the `flush` loop, up to the next await. */
  function LoopTop(e: Effect, id: nat): Effect {
    if !e.pending || e.state == Disposed then e.(flushes := e.flushes[id := FlushDone])
    else
      var f := e.(pending := false, cleanup := None);
      if e.cleanup.Some? then
        f.(state := CleanupRunning, task := e.cleanup, flushes := f.flushes[id := AwaitsTask(e.cleanup.value)])
      else StartBody(f, id)
  }

  function AfterTask(e: Effect, id: nat): Effect {
    var f := e.(task := None);
    if f.state == Disposed then f.(flushes := f.flushes[id := FlushDone]) else StartBody(f, id)
  }

  /** The body returned; `made` is the cleanup it gave, already numbered. */
  function AfterBody(e: Effect, id: nat, made: Option<nat>): Effect {
    if e.state == Disposed then
      if made.Some? then
        e.(cleanup := None, flushes := e.flushes[id := LastCleanup(made.value)],
            cleanups := Started(e.cleanups, made.value))
      else e.(cleanup := None, flushes := e.flushes[id := FlushDone])
    else LoopTop(e.(cleanup := made, state := if e.pending then Scheduled else Idle), id)
  }

  /** The rest of `dispose` once no cleanup task is left to wait for. */
  function TakeCleanup(e: Effect, id: nat): Effect {
    if e.cleanup.Some? then
      e.(cleanup := None, disposes := e.disposes[id := OwnCleanup(e.cleanup.value)],
          cleanups := Started(e.cleanups, e.cleanup.value))
    else e.(disposes := e.disposes[id := DisposeDone])
  }

  /** `dispose`, up to the next await. */
  function Disposing(e: Effect, id: nat): Effect {
    var f := e.(state := Disposed, pending := false);
    if f.task.None? then TakeCleanup(f, id)
    else if Ended(f.cleanups, f.task.value) then TakeCleanup(f.(task := None), id)
    else f.(disposes := f.disposes[id := AwaitsRunning(f.task.value)])
  }

  /** Some flush created the cleanup's task and waits for it. */
  predicate Awaited(e: Effect, c: nat) {
    exists id :: id in e.flushes && e.flushes[id] == AwaitsTask(c)
  }

  /** What can happen next when calls to `flush` may overlap. */
  predicate Possible(e: Effect, ev: Event) {
    match ev
    case Invalidate => true
    case FlushCall(id) => id !in e.flushes
    case FlushResumes(id) =>
      id in e.flushes && (match e.flushes[id]
                          case AwaitsTask(c) => Ended(e.cleanups, c)
                          case LastCleanup(c) => Ended(e.cleanups, c)
                          case _ => false)
    case BodyReturns(id, _) => id in e.flushes && e.flushes[id].InBody?
    case DisposeCall(id) => id !in e.disposes
    case DisposeResumes(id) =>
      id in e.disposes && (match e.disposes[id]
                           case AwaitsRunning(c) => Ended(e.cleanups, c)
                           case OwnCleanup(c) => Ended(e.cleanups, c)
                           case DisposeDone => false)
    case CleanupStarts(c) => Unstarted(e.cleanups, c) && Awaited(e, c)
    case CleanupEnds(c) => Running(e.cleanups, c)
  }

  /** One flush at a time. */
  predicate Enabled(e: Effect, ev: Event) {
    Possible(e, ev) && (ev.FlushCall? ==> forall id :: id in e.flushes ==> e.flushes[id].FlushDone?)
  }

  function Do(e: Effect, ev: Event): Effect
    requires Possible(e, ev)
  {
    match ev
    case Invalidate => Invalidated(e)
    case FlushCall(id) => LoopTop(e, id)
    case FlushResumes(id) =>
      if e.flushes[id].AwaitsTask? then AfterTask(e, id) else e.(flushes := e.flushes[id := FlushDone])
    case BodyReturns(id, withCleanup) =>
      if withCleanup then AfterBody(e.(cleanups := e.cleanups + [Cleanup(0, 0)]), id, Some(|e.cleanups|))
          else AfterBody(e, id, None)
    case DisposeCall(id) => Disposing(e, id)
    case DisposeResumes(id) =>
      if e.disposes[id].AwaitsRunning? then TakeCleanup(e.(task := None), id)
          else e.(disposes := e.disposes[id := DisposeDone])
    case CleanupStarts(c) => e.(cleanups := Started(e.cleanups, c))
    case CleanupEnds(c) => e.(cleanups := Finished(e.cleanups, c))
  }

  ghost predicate Runs(e: Effect, evs: seq<Event>)
    decreases |evs|
  {
    evs == [] || (Enabled(e, evs[0]) && Runs(Do(e, evs[0]), evs[1..]))
  }

  ghost function After(e: Effect, evs: seq<Event>): Effect
    requires Runs(e, evs)
    decreases |evs|
  {
    if evs == [] then e else After(Do(e, evs[0]), evs[1..])
  }

  /** The same without the limit to one flush: calls to `flush` may overlap at will. */
  ghost predicate Unfolds(e: Effect, evs: seq<Event>)
    decreases |evs|
  {
    evs == [] || (Possible(e, evs[0]) && Unfolds(Do(e, evs[0]), evs[1..]))
  }

  ghost function Unfolded(e: Effect, evs: seq<Event>): Effect
    requires Unfolds(e, evs)
    decreases |evs|
  {
    if evs == [] then e else Unfolded(Do(e, evs[0]), evs[1..])
  }

  /** Runs with one flush at a time are among them. */
  lemma {:induction false} RunsUnfold(e: Effect, evs: seq<Event>)
    requires Runs(e, evs)
    ensures Unfolds(e, evs) && Unfolded(e, evs) == After(e, evs)
    decreases |evs|
  {
    hide Do, Possible;
    if evs != [] { RunsUnfold(Do(e, evs[0]), evs[1..]); }
  }

  // ----- what every interleaving with one flush at a time keeps -----

  /** All cleanups returned so far have run to their end. */
  ghost predicate AllEnded(cs: seq<Cleanup>) {
    forall c :: 0 <= c < |cs| ==> Ended(cs, c)
  }

  /** Only `who` may have a flush under way. */
  ghost predicate OnlyFlush(flushes: map<nat, Flush>, who: Option<nat>) {
    && (forall id :: id in flushes && Some(id) != who ==> flushes[id].FlushDone?)
    && (who.Some? ==> who.value in flushes && !flushes[who.value].FlushDone?)
  }

  function Place(flushes: map<nat, Flush>, who: Option<nat>): Flush {
    if who.Some? && who.value in flushes then flushes[who.value] else FlushDone
  }

  /** Every cleanup but the last has ended; the last was started at most once. */
  ghost predicate Counted(cs: seq<Cleanup>) {
    && (forall c :: 0 <= c < |cs| - 1 ==> Ended(cs, c))
    && (cs != [] ==> Unstarted(cs, |cs| - 1) || Running(cs, |cs| - 1) || Ended(cs, |cs| - 1))
  }

  /** One place holds the last cleanup until it has ended: the field, the flush that awaits
      it, or the disposal that runs it. */
  predicate Held(e: Effect, place: Flush, owner: Option<nat>) {
    var last := |e.cleanups| - 1;
    && (e.cleanup.Some? ==>
          && last >= 0 && e.cleanup.value == last && Unstarted(e.cleanups, last)
          && place.FlushDone? && e.state != Disposed)
    && (match place
        case FlushDone => e.task.None?
            && (last < 0 || Ended(e.cleanups, last) || e.cleanup == Some(last)
            || (owner.Some? && Running(e.cleanups, last)))
        case AwaitsTask(c) =>
          && last >= 0 && c == last && owner.None?
          && (e.task.Some? ==> e.task.value == c) && (!Ended(e.cleanups, c) ==> e.task.Some?)
        case InBody => e.task.None? && owner.None? && (last < 0 || Ended(e.cleanups, last))
        case LastCleanup(c) =>
          last >= 0 && c == last && e.task.None? && owner.None? && e.state == Disposed
              && (Running(e.cleanups, c) || Ended(e.cleanups, c)))
  }

  ghost predicate Disposals(e: Effect, place: Flush, owner: Option<nat>) {
    && (forall id :: id in e.disposes && e.disposes[id].AwaitsRunning? ==>
          e.disposes[id].cleanup == |e.cleanups| - 1 && e.state == Disposed && (place.AwaitsTask? || place.FlushDone?))
    && (forall id :: id in e.disposes && e.disposes[id].OwnCleanup? ==> Some(id) == owner)
    && (owner.Some? ==>
          owner.value in e.disposes && e.cleanups != [] && e.disposes[owner.value] == OwnCleanup(|e.cleanups| - 1)
          && (Running(e.cleanups, |e.cleanups| - 1) || Ended(e.cleanups, |e.cleanups| - 1)) && e.state == Disposed)
  }

  ghost predicate SoundFor(e: Effect, who: Option<nat>, owner: Option<nat>) {
    OnlyFlush(e.flushes, who) && Counted(e.cleanups) && Held(e, Place(e.flushes, who), owner)
        && Disposals(e, Place(e.flushes, who), owner)
  }

  ghost predicate Sound(e: Effect) {
    exists who, owner :: SoundFor(e, who, owner)
  }

  lemma {:induction false} LastMoves(cs: seq<Cleanup>)
    requires Counted(cs) && cs != []
    ensures Unstarted(cs, |cs| - 1) ==> Counted(Started(cs, |cs| - 1)) && Running(Started(cs, |cs| - 1), |cs| - 1)
    ensures Running(cs, |cs| - 1) ==> Counted(Finished(cs, |cs| - 1)) && Ended(Finished(cs, |cs| - 1), |cs| - 1)
  {
    var a, b := Started(cs, |cs| - 1), Finished(cs, |cs| - 1);
    forall c | 0 <= c < |cs| - 1 ensures Ended(a, c) && Ended(b, c) {
      assert Ended(cs, c);
    }
  }

  lemma {:induction false} LoopTopSound(e: Effect, id: nat, who: Option<nat>, owner: Option<nat>)
    returns (who': Option<nat>)
    requires OnlyFlush(e.flushes - {id}, None) && (who == None || who == Some(id))
    requires Counted(e.cleanups) && Held(e, FlushDone, owner) && Disposals(e, FlushDone, owner)
    ensures SoundFor(LoopTop(e, id), who', owner)
  {
    who' := if !e.pending || e.state == Disposed then None else Some(id);
    var f := LoopTop(e, id);
    forall j | j in f.flushes && j != id ensures f.flushes[j].FlushDone? {
      assert j in e.flushes - {id};
    }
  }

  lemma {:induction false} FlushResumesSound(e: Effect, id: nat, who: Option<nat>, owner: Option<nat>)
      returns (who': Option<nat>)
    requires SoundFor(e, who, owner) && Enabled(e, FlushResumes(id))
    ensures SoundFor(Do(e, FlushResumes(id)), who', owner)
  {
    who' := if e.flushes[id].AwaitsTask? && e.state != Disposed then Some(id) else None;
    assert who == Some(id);
  }

  lemma {:induction false} BodyReturnsSound(e: Effect, id: nat, withCleanup: bool, who: Option<nat>, owner: Option<nat>)
    returns (who': Option<nat>)
    requires SoundFor(e, who, owner) && Enabled(e, BodyReturns(id, withCleanup))
    ensures SoundFor(Do(e, BodyReturns(id, withCleanup)), who', owner)
  {
    assert who == Some(id);
    var n := |e.cleanups|;
    var g := if withCleanup then e.(cleanups := e.cleanups + [Cleanup(0, 0)]) else e;
    var made := if withCleanup then Some(n) else None;
    assert forall c :: 0 <= c < n ==> Ended(e.cleanups, c) && g.cleanups[c] == e.cleanups[c];
    assert Counted(g.cleanups);
    if e.state == Disposed {
      who' := if withCleanup then Some(id) else None;
    } else {
      var h := g.(cleanup := made, state := if e.pending then Scheduled else Idle);
      forall j | j in e.flushes - {id} ensures (e.flushes - {id})[j].FlushDone? { assert Some(j) != who; }
      who' := LoopTopSound(h, id, Some(id), owner);
    }
  }

  lemma {:induction false} DisposeCallSound(e: Effect, id: nat, who: Option<nat>, owner: Option<nat>)
      returns (owner': Option<nat>)
    requires SoundFor(e, who, owner) && Enabled(e, DisposeCall(id))
    ensures SoundFor(Do(e, DisposeCall(id)), who, owner')
  {
    owner' := if e.cleanup.Some? then Some(id) else owner;
    if e.cleanup.Some? { LastMoves(e.cleanups); }
  }

  lemma {:induction false} DisposeResumesSound(e: Effect, id: nat, who: Option<nat>, owner: Option<nat>)
      returns (owner': Option<nat>)
    requires SoundFor(e, who, owner) && Enabled(e, DisposeResumes(id))
    ensures SoundFor(Do(e, DisposeResumes(id)), who, owner')
  {
    owner' := if e.disposes[id].OwnCleanup? then None else owner;
  }

  lemma {:induction false} CleanupSound(e: Effect, ev: Event, who: Option<nat>, owner: Option<nat>)
    requires SoundFor(e, who, owner) && Enabled(e, ev) && (ev.CleanupStarts? || ev.CleanupEnds?)
    ensures SoundFor(Do(e, ev), who, owner)
  {
    var c := ev.cleanup;
    assert c < |e.cleanups| - 1 ==> Ended(e.cleanups, c);
    LastMoves(e.cleanups);
  }

  lemma {:induction false} InvalidateSound(e: Effect, who: Option<nat>, owner: Option<nat>)
    requires SoundFor(e, who, owner)
    ensures SoundFor(Invalidated(e), who, owner)
  {
  }

  lemma {:induction false} FlushCallSound(e: Effect, id: nat, who: Option<nat>, owner: Option<nat>)
      returns (who': Option<nat>)
    requires SoundFor(e, who, owner) && Enabled(e, FlushCall(id))
    ensures SoundFor(Do(e, FlushCall(id)), who', owner)
  {
    assert who == None;
    assert e.flushes - {id} == e.flushes;
    who' := LoopTopSound(e, id, None, owner);
  }

  lemma {:induction false} StepSound(e: Effect, ev: Event)
    requires Sound(e) && Enabled(e, ev)
    ensures Sound(Do(e, ev))
  {
    var who, owner :| SoundFor(e, who, owner);
    hide SoundFor, Do, Enabled;
    match ev
    case Invalidate =>
      InvalidateSound(e, who, owner);
      assert SoundFor(Do(e, ev), who, owner) by { DoInvalidate(e); }
    case FlushCall(id) => var w := FlushCallSound(e, id, who, owner);
    case FlushResumes(id) => var w := FlushResumesSound(e, id, who, owner);
    case BodyReturns(id, withCleanup) => var w := BodyReturnsSound(e, id, withCleanup, who, owner);
    case DisposeCall(id) => var o := DisposeCallSound(e, id, who, owner);
    case DisposeResumes(id) => var o := DisposeResumesSound(e, id, who, owner);
    case CleanupStarts(_) => CleanupSound(e, ev, who, owner);
    case CleanupEnds(_) => CleanupSound(e, ev, who, owner);
  }

  lemma {:induction false} DoInvalidate(e: Effect)
    ensures Possible(e, Invalidate) && Do(e, Invalidate) == Invalidated(e)
  {
  }

  lemma {:induction false} RunSound(e: Effect, evs: seq<Event>)
    requires Sound(e) && Runs(e, evs)
    ensures Sound(After(e, evs))
    decreases |evs|
  {
    hide Sound, Do;
    if evs != [] {
      StepSound(e, evs[0]);
      RunSound(Do(e, evs[0]), evs[1..]);
    }
  }

  lemma {:induction false} FreshSound()
    ensures Sound(FRESH)
  {
    assert SoundFor(FRESH, None, None);
  }

  // ----- the guarantees -----

  /** Cleanup before body: while a body runs every cleanup returned so far has ended, so no
      cleanup overlaps a body and the previous one finished before the body started. */
  lemma {:induction false} BodyAfterCleanups(evs: seq<Event>, id: nat)
    requires Runs(FRESH, evs) && id in After(FRESH, evs).flushes && After(FRESH, evs).flushes[id].InBody?
    ensures AllEnded(After(FRESH, evs).cleanups)
  {
    FreshSound();
    RunSound(FRESH, evs);
    var e := After(FRESH, evs);
    var who, owner :| SoundFor(e, who, owner);
    hide Runs, After, Disposals;
    assert who == Some(id);
  }

  /** Disposal is final: no step leaves the state or starts a body. */
  lemma {:induction false} DisposedStays(e: Effect, ev: Event)
    requires e.state == Disposed && Possible(e, ev)
    ensures Do(e, ev).state == Disposed && Do(e, ev).bodies == e.bodies
    ensures forall id :: id in Do(e, ev).flushes && Do(e, ev).flushes[id].InBody? ==>
              id in e.flushes && e.flushes[id].InBody?
  {
  }

  lemma {:induction false} DisposedRunStays(e: Effect, evs: seq<Event>)
    requires e.state == Disposed && Unfolds(e, evs)
    ensures Unfolded(e, evs).state == Disposed && Unfolded(e, evs).bodies == e.bodies
    decreases |evs|
  {
    hide Do;
    if evs != [] {
      DisposedStays(e, evs[0]);
      DisposedRunStays(Do(e, evs[0]), evs[1..]);
    }
  }

  predicate Quiet(e: Effect) {
    && (forall id :: id in e.flushes ==> e.flushes[id].FlushDone?)
    && (forall id :: id in e.disposes ==> e.disposes[id].DisposeDone?)
  }

  /** Once the effect is disposed and no call is left under way, every cleanup a body ever
      returned has run to its end. */
  lemma {:induction false} NothingLeftUnrun(evs: seq<Event>)
    requires Runs(FRESH, evs) && After(FRESH, evs).state == Disposed && Quiet(After(FRESH, evs))
    ensures AllEnded(After(FRESH, evs).cleanups) && After(FRESH, evs).cleanup == None
  {
    FreshSound();
    RunSound(FRESH, evs);
    var e := After(FRESH, evs);
    var who, owner :| SoundFor(e, who, owner);
    hide Runs, After;
    assert who == None && owner == None;
  }

  // ----- the kernel and the effect -----

  /** Where the effect stands: disposed, behind a cleanup that a flush awaits, or neither, each
      with or without a rerun pending. */
  predicate Cleaning(e: Effect) {
    exists id :: id in e.flushes && e.flushes[id].AwaitsTask?
  }

  function Standing(e: Effect): EffectState {
    if e.state == Disposed then Disposed
    else if Cleaning(e) then if e.pending then CleanupRunningScheduled else CleanupRunning
    else if e.pending then Scheduled else Idle
  }

  /** The kernel event that a step stands for. */
  function KernelImage(e: Effect, ev: Event): Option<KernelEvent> {
    match ev
    case Invalidate => Some(KInvalidate)
    case FlushCall(_) => Some(KFire(e.cleanup.Some?))
    case FlushResumes(_) => Some(KCleanupDone)
    case BodyReturns(_, withCleanup) => Some(KFire(withCleanup))
    case DisposeCall(_) => Some(KDispose)
    case _ => None
  }

  /** With one flush at a time the effect goes step by step where the kernel goes. */
  lemma {:induction false} EffectFollowsKernel(e: Effect, ev: Event)
    requires Sound(e) && Enabled(e, ev)
    ensures Standing(Do(e, ev))
            == (var image := KernelImage(e, ev);
                if image.Some? then KernelStep(Standing(e), image.value) else Standing(e))
  {
    var who, owner :| SoundFor(e, who, owner);
    assert OnlyFlush(e.flushes, who);
    hide Disposals, Counted, KernelStep;
    match ev
    case FlushCall(id) => FlushCallStands(e, id);
    case FlushResumes(id) => FlushResumesStands(e, id, who, owner);
    case BodyReturns(id, withCleanup) => BodyReturnsStands(e, id, withCleanup, who);
    case _ => OtherStands(e, ev);
  }

  lemma {:induction false} FlushCallStands(e: Effect, id: nat)
    requires Enabled(e, FlushCall(id))
    ensures Standing(Do(e, FlushCall(id))) == KernelStep(Standing(e), KFire(e.cleanup.Some?))
  {
    var f := Do(e, FlushCall(id));
    assert f.flushes[id].AwaitsTask? ==> Cleaning(f);
  }

  lemma {:induction false} FlushResumesStands(e: Effect, id: nat, who: Option<nat>, owner: Option<nat>)
    requires Enabled(e, FlushResumes(id)) && OnlyFlush(e.flushes, who) && Held(e, Place(e.flushes, who), owner)
    ensures Standing(Do(e, FlushResumes(id))) == KernelStep(Standing(e), KCleanupDone)
  {
    assert who == Some(id);
    assert e.flushes[id].AwaitsTask? ==> Cleaning(e);
  }

  lemma {:induction false} BodyReturnsStands(e: Effect, id: nat, withCleanup: bool, who: Option<nat>)
    requires Enabled(e, BodyReturns(id, withCleanup)) && OnlyFlush(e.flushes, who)
    ensures Standing(Do(e, BodyReturns(id, withCleanup))) == KernelStep(Standing(e), KFire(withCleanup))
  {
    assert who == Some(id);
    var f := Do(e, BodyReturns(id, withCleanup));
    assert f.flushes[id].AwaitsTask? ==> Cleaning(f);
  }

  lemma {:induction false} OtherStands(e: Effect, ev: Event)
    requires Enabled(e, ev) && !ev.FlushCall? && !ev.FlushResumes? && !ev.BodyReturns?
    ensures Standing(Do(e, ev))
            == if ev.Invalidate? then KernelStep(Standing(e), KInvalidate)
               else if ev.DisposeCall? then Disposed else Standing(e)
  {
    assert Do(e, ev).flushes == e.flushes;
  }

  /** Between flushes the state field says where the effect stands. */
  ghost predicate Settled(e: Effect) {
    (forall id :: id in e.flushes ==> e.flushes[id].FlushDone?) ==> e.state == Standing(e)
  }

  lemma {:induction false} StepSettles(e: Effect, ev: Event)
    requires Sound(e) && Settled(e) && Enabled(e, ev)
    ensures Settled(Do(e, ev))
  {
    var who, owner :| SoundFor(e, who, owner);
    assert OnlyFlush(e.flushes, who) && Held(e, Place(e.flushes, who), owner);
    hide Disposals, Counted;
    match ev
    case FlushCall(id) => LoopTopSettles(e, id);
    case FlushResumes(id) =>
      assert who == Some(id) && Place(e.flushes, who) == e.flushes[id];
      assert e.flushes[id].LastCleanup? ==> e.state == Disposed;
      assert id in Do(e, ev).flushes && (Do(e, ev).flushes[id].FlushDone? ==> Do(e, ev).state == Disposed);
    case BodyReturns(id, withCleanup) =>
      assert who == Some(id);
      if e.state != Disposed {
        var g := if withCleanup then e.(cleanups := e.cleanups + [Cleanup(0, 0)]) else e;
        var made := if withCleanup then Some(|e.cleanups|) else None;
        LoopTopSettles(g.(cleanup := made, state := if e.pending then Scheduled else Idle), id);
      }
    case _ => assert Do(e, ev).flushes == e.flushes;
  }

  lemma {:induction false} LoopTopSettles(e: Effect, id: nat)
    requires (forall i :: i in e.flushes && i != id ==> e.flushes[i].FlushDone?)
             ==> e.state == if e.state == Disposed then Disposed else if e.pending then Scheduled else Idle
    ensures Settled(LoopTop(e, id))
  {
    var f := LoopTop(e, id);
    assert id in f.flushes && forall i :: i in e.flushes && i != id ==> i in f.flushes && f.flushes[i] == e.flushes[i];
  }

  lemma {:induction false} SettledBetweenFlushes(evs: seq<Event>)
    requires Runs(FRESH, evs)
    ensures var e := After(FRESH, evs);
            (forall id :: id in e.flushes ==> e.flushes[id].FlushDone?) ==> e.state == Standing(e)
  {
    FreshSound();
    RunSettles(FRESH, evs);
  }

  lemma {:induction false} RunSettles(e: Effect, evs: seq<Event>)
    requires Sound(e) && Settled(e) && Runs(e, evs)
    ensures Settled(After(e, evs))
    decreases |evs|
  {
    hide Sound, Settled, Do;
    if evs != [] {
      StepSound(e, evs[0]);
      StepSettles(e, evs[0]);
      RunSettles(Do(e, evs[0]), evs[1..]);
    }
  }

  // ----- no invalidation is forgotten -----

  /** A body has started since `b` of them had, or one is still owed. */
  predicate Owes(e: Effect, b: nat) {
    || e.bodies > b
    || (e.bodies == b
        && (e.state == Disposed || e.pending || exists id :: id in e.flushes && e.flushes[id].AwaitsTask?))
  }

  lemma {:induction false} StepOwes(e: Effect, ev: Event, b: nat)
    requires Owes(e, b) && Possible(e, ev)
    ensures Owes(Do(e, ev), b)
  {
    var f := Do(e, ev);
    if id :| id in e.flushes && e.flushes[id].AwaitsTask? {
      assert (id in f.flushes && f.flushes[id] == e.flushes[id]) || f.state == Disposed || f.bodies > e.bodies;
    }
    if e.pending && f.state != Disposed && !f.pending && f.bodies == e.bodies {
      var id := if ev.FlushCall? || ev.BodyReturns? || ev.FlushResumes? then ev.id else 0;
      assert id in f.flushes && f.flushes[id].AwaitsTask?;
    }
  }

  lemma {:induction false} RunOwes(e: Effect, evs: seq<Event>, b: nat)
    requires Owes(e, b) && Unfolds(e, evs)
    ensures Owes(Unfolded(e, evs), b)
    decreases |evs|
  {
    hide Owes, Do, Possible;
    if evs != [] {
      StepOwes(e, evs[0], b);
      RunOwes(Do(e, evs[0]), evs[1..], b);
    }
  }

  /** Whatever overlaps, an invalidation is followed by a new body, unless the effect is
      disposed, before it is no longer pending and no flush is under way: a body that was
      running when it came does not count. */
  lemma {:induction false} InvalidationReruns(e: Effect, evs: seq<Event>)
    requires e.state != Disposed && Unfolds(Invalidated(e), evs)
    ensures var f := Unfolded(Invalidated(e), evs);
            f.state != Disposed && !f.pending && (forall id :: id in f.flushes ==> f.flushes[id].FlushDone?) ==>
              f.bodies > e.bodies
  {
    RunOwes(Invalidated(e), evs, e.bodies);
    hide Unfolds, Unfolded;
  }

  /** A flush whose body was invalidated while it ran goes on when the body returns: it starts
      the next body, or awaits the cleanup that the body left. */
  lemma {:induction false} FlushGoesOn(e: Effect, id: nat, withCleanup: bool)
    requires Possible(e, BodyReturns(id, withCleanup)) && e.pending && e.state != Disposed
    ensures var f := Do(e, BodyReturns(id, withCleanup));
            id in f.flushes && !f.pending
            && (if withCleanup then
                  f.flushes[id] == AwaitsTask(|e.cleanups|) && f.bodies == e.bodies && f.state == CleanupRunning
                else f.flushes[id] == InBody && f.bodies == e.bodies + 1 && f.state == Scheduled)
  {
  }

  /** On a live effect a flush ends only when nothing is pending. */
  lemma {:induction false} FlushEndsIdle(e: Effect, ev: Event, id: nat)
    requires Possible(e, ev) && (id in e.flushes ==> !e.flushes[id].FlushDone?)
    requires id in Do(e, ev).flushes && Do(e, ev).flushes[id].FlushDone?
    ensures Do(e, ev).state == Disposed || !Do(e, ev).pending || (id in e.flushes && e.flushes[id].LastCleanup?)
  {
  }

  // ----- where the guarantees end -----

  /** A cleanup that was never started and that nothing holds any more. */
  predicate Lost(e: Effect, c: nat) {
    Unstarted(e.cleanups, c) && e.cleanup != Some(c) && !Awaited(e, c)
  }

  /** With one flush at a time no cleanup is ever lost. */
  lemma {:induction false} NoneIsLost(evs: seq<Event>, c: nat)
    requires Runs(FRESH, evs)
    ensures !Lost(After(FRESH, evs), c)
  {
    FreshSound();
    RunSound(FRESH, evs);
    var e := After(FRESH, evs);
    var who, owner :| SoundFor(e, who, owner);
    hide Runs, After;
    assert c < |e.cleanups| - 1 ==> Ended(e.cleanups, c);
    assert who.Some? && e.flushes[who.value] == AwaitsTask(c) ==> Awaited(e, c);
  }

  /** Whatever happens later, disposal included, a lost cleanup is never run. */
  lemma {:induction false} LostStays(e: Effect, ev: Event, c: nat)
    requires Lost(e, c) && Possible(e, ev)
    ensures Lost(Do(e, ev), c)
  {
    LostCleanupStays(e, ev, c);
    LaterAwaits(e, ev, c);
    hide Do, Possible, Unstarted;
  }

  lemma {:induction false} LostCleanupStays(e: Effect, ev: Event, c: nat)
    requires Lost(e, c) && Possible(e, ev)
    ensures Unstarted(Do(e, ev).cleanups, c) && Do(e, ev).cleanup != Some(c)
  {
  }

  /** A flush comes to await only the retained cleanup or a new one. */
  lemma {:induction false} LaterAwaits(e: Effect, ev: Event, c: nat)
    requires Possible(e, ev) && c < |e.cleanups| && e.cleanup != Some(c)
    ensures forall id :: id in Do(e, ev).flushes && Do(e, ev).flushes[id] == AwaitsTask(c) ==>
              id in e.flushes && e.flushes[id] == AwaitsTask(c)
  {
    hide Started, Finished, Awaited, Ended, Unstarted, Running;
  }

  // ----- what overlapping flushes keep -----

  /** Something will see the running cleanup through. */
  ghost predicate Minded(e: Effect, c: nat) {
    || Awaited(e, c)
    || (exists id :: id in e.flushes && e.flushes[id] == LastCleanup(c))
    || (exists id :: id in e.disposes && e.disposes[id] == OwnCleanup(c))
  }

  predicate Staged(cs: seq<Cleanup>, c: nat) {
    Unstarted(cs, c) || Running(cs, c) || Ended(cs, c)
  }

  /** Cleanups start and end at most once, running ones are minded, and the retained one was
      not started and is awaited by nobody. */
  ghost predicate Kept(e: Effect) {
    && (forall c: nat :: c < |e.cleanups| ==> Staged(e.cleanups, c))
    && (e.cleanup.Some? ==> Unstarted(e.cleanups, e.cleanup.value) && !Awaited(e, e.cleanup.value))
    && (forall id :: id in e.flushes && e.flushes[id].AwaitsTask? ==> e.flushes[id].cleanup < |e.cleanups|)
    && (forall c: nat :: Running(e.cleanups, c) ==> Minded(e, c))
  }

  /** After disposal only a disposal that still waits leaves a cleanup retained. */
  ghost predicate Tidy(e: Effect) {
    && Kept(e)
    && (e.state == Disposed && e.cleanup.Some? ==> exists id :: id in e.disposes && e.disposes[id].AwaitsRunning?)
  }

  lemma {:induction false} StartedStages(cs: seq<Cleanup>, c: nat)
    requires Unstarted(cs, c)
    ensures |Started(cs, c)| == |cs|
    ensures forall d: nat :: Staged(cs, d) ==> Staged(Started(cs, c), d)
    ensures forall d: nat :: Running(Started(cs, c), d) <==> d == c || Running(cs, d)
    ensures forall d: nat :: Unstarted(Started(cs, c), d) <==> d != c && Unstarted(cs, d)
  {
  }

  lemma {:induction false} FinishedStages(cs: seq<Cleanup>, c: nat)
    requires Running(cs, c)
    ensures |Finished(cs, c)| == |cs|
    ensures forall d: nat :: Staged(cs, d) ==> Staged(Finished(cs, c), d)
    ensures forall d: nat :: Running(Finished(cs, c), d) <==> d != c && Running(cs, d)
    ensures forall d: nat :: Unstarted(Finished(cs, c), d) <==> Unstarted(cs, d)
  {
  }

  lemma {:induction false} GrownStages(cs: seq<Cleanup>)
    ensures forall d: nat :: Staged(cs + [Cleanup(0, 0)], d) <==> d == |cs| || Staged(cs, d)
    ensures forall d: nat :: Running(cs + [Cleanup(0, 0)], d) <==> Running(cs, d)
    ensures forall d: nat :: Unstarted(cs + [Cleanup(0, 0)], d) <==> d == |cs| || Unstarted(cs, d)
  {
  }

  lemma {:induction false} FreshTidy()
    ensures Tidy(FRESH)
  {
  }

  /** Whoever minds a cleanup goes on minding it. */
  lemma {:induction false} MindedStays(e: Effect, f: Effect, c: nat)
    requires Minded(e, c)
    requires forall id :: id in e.flushes && (e.flushes[id] == AwaitsTask(c) || e.flushes[id] == LastCleanup(c)) ==>
               id in f.flushes && f.flushes[id] == e.flushes[id]
    requires forall id :: id in e.disposes && e.disposes[id] == OwnCleanup(c) ==>
               id in f.disposes && f.disposes[id] == e.disposes[id]
    ensures Minded(f, c)
  {
  }

  /** Taking the retained cleanup, or starting a body, at the head of the loop. */
  lemma {:induction false} LoopTopTidy(e: Effect, id: nat)
    requires Tidy(e) && (id in e.flushes ==> e.flushes[id].InBody? || e.flushes[id].FlushDone?)
    ensures Tidy(LoopTop(e, id))
  {
    assert e.cleanup.Some? ==> e.cleanup.value < |e.cleanups|;
    hide Minded, Staged, Running, Unstarted;
    var f := LoopTop(e, id);
    forall c: nat | Running(f.cleanups, c) ensures Minded(f, c) { MindedStays(e, f, c); }
  }

  lemma {:induction false} TakeTidy(e: Effect, id: nat)
    requires Kept(e) && (id in e.disposes ==> e.disposes[id].AwaitsRunning?)
    ensures Tidy(TakeCleanup(e, id))
  {
    var f := TakeCleanup(e, id);
    if e.cleanup.Some? { StartedStages(e.cleanups, e.cleanup.value); }
    hide Staged, Running, Unstarted, Started;
    forall c: nat | Running(f.cleanups, c) ensures Minded(f, c) {
      if e.cleanup == Some(c) {
        assert f.disposes[id] == OwnCleanup(c);
      } else {
        assert Running(e.cleanups, c);
        MindedStays(e, f, c);
      }
    }
  }

  lemma {:induction false} KeptFields(e: Effect, f: Effect)
    requires Kept(e) && f.cleanup == e.cleanup && f.flushes == e.flushes && f.disposes == e.disposes
    requires f.cleanups == e.cleanups
    ensures Kept(f)
  {
    hide Staged, Running, Unstarted;
    forall c: nat | Running(f.cleanups, c) ensures Minded(f, c) { MindedStays(e, f, c); }
  }

  lemma {:induction false} DisposeCallTidy(e: Effect, id: nat)
    requires Tidy(e) && id !in e.disposes
    ensures Tidy(Disposing(e, id))
  {
    var f := e.(state := Disposed, pending := false);
    var d := Disposing(e, id);
    if f.task.None? || Ended(f.cleanups, f.task.value) {
      hide Kept;
      KeptFields(e, f);
      KeptFields(e, f.(task := None));
      TakeTidy(f, id);
      TakeTidy(f.(task := None), id);
    } else {
      hide Minded, Staged, Running, Unstarted;
      forall c: nat | Running(d.cleanups, c) ensures Minded(d, c) { MindedStays(e, d, c); }
      assert d.disposes[id].AwaitsRunning?;
    }
  }

  lemma {:induction false} BodyTidy(e: Effect, id: nat, withCleanup: bool)
    requires Tidy(e) && Possible(e, BodyReturns(id, withCleanup))
    ensures Tidy(Do(e, BodyReturns(id, withCleanup)))
  {
    GrownStages(e.cleanups);
    var made := if withCleanup then Some(|e.cleanups|) else None;
    var g := if withCleanup then e.(cleanups := e.cleanups + [Cleanup(0, 0)]) else e;
    var f := Do(e, BodyReturns(id, withCleanup));
    if e.state == Disposed {
      if withCleanup { StartedStages(g.cleanups, |e.cleanups|); }
      hide Minded, Staged, Running, Unstarted, Started;
      forall c: nat | Running(f.cleanups, c) ensures Minded(f, c) {
        if c == |e.cleanups| {
          assert Minded(f, c) by { LastMinds(f, id, c); }
        } else {
          MindedStays(e, f, c);
        }
      }
    } else {
      var h := g.(cleanup := made, state := if g.pending then Scheduled else Idle);
      assert Tidy(h) by {
        hide Minded, Staged, Running, Unstarted;
        forall c: nat | Running(h.cleanups, c) ensures Minded(h, c) { MindedStays(e, h, c); }
      }
      hide Tidy;
      LoopTopTidy(h, id);
    }
  }

  lemma {:induction false} LastMinds(e: Effect, id: nat, c: nat)
    requires id in e.flushes && e.flushes[id] == LastCleanup(c)
    ensures Minded(e, c)
  {
  }

  lemma {:induction false} FlushResumeTidy(e: Effect, id: nat)
    requires Tidy(e) && Possible(e, FlushResumes(id))
    ensures Tidy(Do(e, FlushResumes(id)))
  {
    var f := Do(e, FlushResumes(id));
    assert !Running(e.cleanups, e.flushes[id].cleanup);
    hide Minded, Staged, Running, Unstarted, Ended;
    forall c: nat | Running(f.cleanups, c) ensures Minded(f, c) { MindedStays(e, f, c); }
  }

  lemma {:induction false} DisposeResumeTidy(e: Effect, id: nat)
    requires Tidy(e) && Possible(e, DisposeResumes(id))
    ensures Tidy(Do(e, DisposeResumes(id)))
  {
    var f := Do(e, DisposeResumes(id));
    if e.disposes[id].AwaitsRunning? {
      hide Kept;
      KeptFields(e, e.(task := None));
      TakeTidy(e.(task := None), id);
    } else {
      hide Minded;
      forall c: nat | Running(f.cleanups, c) ensures Minded(f, c) { MindedStays(e, f, c); }
      forall i | i in e.disposes && e.disposes[i].AwaitsRunning?
        ensures i in f.disposes && f.disposes[i].AwaitsRunning?
      {
      }
    }
  }

  lemma {:induction false} CleanupTidy(e: Effect, ev: Event)
    requires Tidy(e) && Possible(e, ev) && (ev.CleanupStarts? || ev.CleanupEnds?)
    ensures Tidy(Do(e, ev))
  {
    var f := Do(e, ev);
    if ev.CleanupStarts? { StartedStages(e.cleanups, ev.cleanup); } else { FinishedStages(e.cleanups, ev.cleanup); }
    hide Staged, Running, Unstarted, Started, Finished;
    forall c: nat | Running(f.cleanups, c) ensures Minded(f, c) {
      assert Minded(e, c);
      MindedStays(e, f, c);
    }
  }

  lemma {:induction false} StepTidy(e: Effect, ev: Event)
    requires Tidy(e) && Possible(e, ev)
    ensures Tidy(Do(e, ev))
  {
    hide Minded, Awaited;
    match ev
    case Invalidate => InvalidateTidy(e);
    case FlushCall(id) => LoopTopTidy(e, id);
    case FlushResumes(id) => FlushResumeTidy(e, id);
    case BodyReturns(id, withCleanup) => BodyTidy(e, id, withCleanup);
    case DisposeCall(id) => DisposeCallTidy(e, id);
    case DisposeResumes(id) => DisposeResumeTidy(e, id);
    case CleanupStarts(_) => CleanupTidy(e, ev);
    case CleanupEnds(_) => CleanupTidy(e, ev);
  }

  lemma {:induction false} InvalidateTidy(e: Effect)
    requires Tidy(e)
    ensures Tidy(Invalidated(e))
  {
  }

  lemma {:induction false} UnfoldedTidy(e: Effect, evs: seq<Event>)
    requires Tidy(e) && Unfolds(e, evs)
    ensures Tidy(Unfolded(e, evs))
    decreases |evs|
  {
    hide Tidy, Do, Possible;
    if evs != [] {
      StepTidy(e, evs[0]);
      UnfoldedTidy(Do(e, evs[0]), evs[1..]);
    }
  }

  /** Each cleanup is started at most once, in every reachable state of every interleaving,
      overlapping flushes included. */
  lemma {:induction false} StartedAtMostOnce(evs: seq<Event>, c: nat)
    requires Unfolds(FRESH, evs) && c < |Unfolded(FRESH, evs).cleanups|
    ensures var k := Unfolded(FRESH, evs).cleanups[c]; k.ends <= k.starts <= 1
  {
    FreshTidy();
    UnfoldedTidy(FRESH, evs);
    hide Unfolds, Unfolded, Minded, Awaited;
    var e := Unfolded(FRESH, evs);
    assert Staged(e.cleanups, c);
  }

  /** Once the effect is disposed and no call is left under way, a cleanup has either run to
      its end or was lost, whatever overlapped. */
  lemma {:induction false} EndedOrLost(evs: seq<Event>, c: nat)
    requires Unfolds(FRESH, evs) && Unfolded(FRESH, evs).state == Disposed && Quiet(Unfolded(FRESH, evs))
    requires c < |Unfolded(FRESH, evs).cleanups|
    ensures Ended(Unfolded(FRESH, evs).cleanups, c) <==> !Lost(Unfolded(FRESH, evs), c)
  {
    FreshTidy();
    UnfoldedTidy(FRESH, evs);
    hide Unfolds, Unfolded;
    var e := Unfolded(FRESH, evs);
    assert Staged(e.cleanups, c);
  }

  /** In every reachable state of every interleaving, a body that returns loses a cleanup
      exactly when one is retained by then, whether or not it returns one itself; with one
      flush at a time none ever is. */
  lemma {:induction false} ReturnLosesIff(evs: seq<Event>, id: nat, withCleanup: bool)
    requires Unfolds(FRESH, evs) && Possible(Unfolded(FRESH, evs), BodyReturns(id, withCleanup))
    ensures var e := Unfolded(FRESH, evs); var f := Do(e, BodyReturns(id, withCleanup));
            (exists c :: 0 <= c < |e.cleanups| && !Lost(e, c) && Lost(f, c)) <==> e.cleanup.Some?
  {
    FreshTidy();
    UnfoldedTidy(FRESH, evs);
    hide Unfolds, Unfolded, Minded;
    var e := Unfolded(FRESH, evs);
    var f := Do(e, BodyReturns(id, withCleanup));
    if e.cleanup.Some? {
      assert Lost(f, e.cleanup.value) && !Lost(e, e.cleanup.value);
    } else {
      assert forall i :: i in e.flushes && e.flushes[i].AwaitsTask? ==> i in f.flushes && f.flushes[i] == e.flushes[i];
      assert forall c :: 0 <= c < |e.cleanups| && Lost(f, c) ==> Lost(e, c);
    }
  }

  lemma {:induction false} UnfoldsMore(e: Effect, evs: seq<Event>, ev: Event)
    requires Unfolds(e, evs) && Possible(Unfolded(e, evs), ev)
    ensures Unfolds(e, evs + [ev]) && Unfolded(e, evs + [ev]) == Do(Unfolded(e, evs), ev)
    decreases |evs|
  {
    hide Do, Possible;
    if evs == [] {
      assert [ev][1..] == [] && Unfolds(Do(e, ev), []);
    } else {
      assert (evs + [ev])[1..] == evs[1..] + [ev];
      UnfoldsMore(Do(e, evs[0]), evs[1..], ev);
    }
  }

  // ----- bodies that start beside a cleanup -----

  /** The cleanups that the effect, not an awaited task, runs belong to disposal. */
  predicate Closing(e: Effect) {
    && (forall id :: id in e.flushes && e.flushes[id].LastCleanup? ==> e.state == Disposed)
    && (forall id :: id in e.disposes ==> e.state == Disposed)
    && (e.state == Disposed ==> !e.pending)
  }

  lemma {:induction false} StepClosing(e: Effect, ev: Event)
    requires Closing(e) && Possible(e, ev)
    ensures Closing(Do(e, ev))
  {
  }

  lemma {:induction false} UnfoldedClosing(e: Effect, evs: seq<Event>)
    requires Closing(e) && Unfolds(e, evs)
    ensures Closing(Unfolded(e, evs))
    decreases |evs|
  {
    hide Closing, Do, Possible;
    if evs != [] {
      StepClosing(e, evs[0]);
      UnfoldedClosing(Do(e, evs[0]), evs[1..]);
    }
  }

  /** What a step that starts a body finds and leaves. */
  lemma {:induction false} BodyStarts(e: Effect, ev: Event)
    requires Possible(e, ev) && Do(e, ev).bodies > e.bodies
    ensures e.state != Disposed && Do(e, ev).cleanups == e.cleanups
    ensures Do(e, ev).cleanup == if ev.FlushResumes? then e.cleanup else None
    ensures forall id :: id in Do(e, ev).flushes && Do(e, ev).flushes[id].AwaitsTask? ==>
              id in e.flushes && Do(e, ev).flushes[id] == e.flushes[id]
    ensures forall id :: id in e.flushes && e.flushes[id].AwaitsTask? && !Ended(e.cleanups, e.flushes[id].cleanup) ==>
              id in Do(e, ev).flushes && Do(e, ev).flushes[id] == e.flushes[id]
  {
  }

  /** In every reachable state of every interleaving, a body starts beside a running cleanup
      if and only if some other flush still awaits a running one. */
  lemma {:induction false} BodyBesideCleanupIff(evs: seq<Event>, ev: Event)
    requires Unfolds(FRESH, evs) && Possible(Unfolded(FRESH, evs), ev)
    requires Do(Unfolded(FRESH, evs), ev).bodies > Unfolded(FRESH, evs).bodies
    ensures var e := Unfolded(FRESH, evs);
            (exists c: nat :: Running(Do(e, ev).cleanups, c))
            <==> exists id :: id in e.flushes && e.flushes[id].AwaitsTask? && Running(e.cleanups, e.flushes[id].cleanup)
  {
    FreshTidy();
    UnfoldedTidy(FRESH, evs);
    UnfoldedClosing(FRESH, evs);
    var e := Unfolded(FRESH, evs);
    BodyStarts(e, ev);
    hide Unfolds, Unfolded, Possible, Do, Running, Staged, Unstarted;
    if c: nat :| Running(e.cleanups, c) {
      assert Minded(e, c);
      assert Awaited(e, c);
    }
  }

  /** It starts before some cleanup that can still be run has ended if and only if some flush
      awaits one that has not, or one is retained by the time another was awaited. */
  lemma {:induction false} BodyBeforeCleanupIff(evs: seq<Event>, ev: Event)
    requires Unfolds(FRESH, evs) && Possible(Unfolded(FRESH, evs), ev)
    requires Do(Unfolded(FRESH, evs), ev).bodies > Unfolded(FRESH, evs).bodies
    ensures var e := Unfolded(FRESH, evs); var f := Do(e, ev);
            (exists c: nat :: c < |f.cleanups| && !Ended(f.cleanups, c) && !Lost(f, c))
            <==> ((ev.FlushResumes? && e.cleanup.Some?)
                  || exists id :: id in e.flushes && e.flushes[id].AwaitsTask?
                                  && !Ended(e.cleanups, e.flushes[id].cleanup))
  {
    FreshTidy();
    UnfoldedTidy(FRESH, evs);
    UnfoldedClosing(FRESH, evs);
    var e := Unfolded(FRESH, evs);
    var f := Do(e, ev);
    BodyStarts(e, ev);
    hide Unfolds, Unfolded, Possible, Do;
    if c: nat :| c < |f.cleanups| && !Ended(f.cleanups, c) && !Lost(f, c) {
      assert Staged(e.cleanups, c);
      assert Running(e.cleanups, c) ==> Minded(e, c);
    }
    if ev.FlushResumes? && e.cleanup.Some? {
      assert !Lost(f, e.cleanup.value) && !Ended(f.cleanups, e.cleanup.value);
    }
    if id :| id in e.flushes && e.flushes[id].AwaitsTask? && !Ended(e.cleanups, e.flushes[id].cleanup) {
      assert Awaited(f, e.flushes[id].cleanup);
      assert !Lost(f, e.flushes[id].cleanup);
    }
  }

  /** A body that returned a cleanup, and a second flush that awaits it. */
  lemma {:induction false} ThroughFirstCleanup() returns (evs: seq<Event>)
    ensures Unfolds(FRESH, evs)
    ensures Unfolded(FRESH, evs) == Effect(CleanupRunning, false, None, Some(0),
        map[1 := FlushDone, 2 := AwaitsTask(0)], map[], [Cleanup(0, 0)], 1)
  {
    hide Unfolds, Unfolded;
    evs := [];
    assert Unfolds(FRESH, []) && Unfolded(FRESH, []) == FRESH by { NothingUnfolds(FRESH); }
    UnfoldsMore(FRESH, evs, Invalidate);
    evs := evs + [Invalidate];
    UnfoldsMore(FRESH, evs, FlushCall(1));
    evs := evs + [FlushCall(1)];
    UnfoldsMore(FRESH, evs, BodyReturns(1, true));
    evs := evs + [BodyReturns(1, true)];
    UnfoldsMore(FRESH, evs, Invalidate);
    evs := evs + [Invalidate];
    UnfoldsMore(FRESH, evs, FlushCall(2));
    evs := evs + [FlushCall(2)];
  }

  /** Cleanup before body does not survive overlap: a third flush starts a body while the
      second still awaits a running cleanup. */
  lemma {:induction false} OverlapRunsBodyDuringCleanup() returns (evs: seq<Event>)
    ensures Unfolds(FRESH, evs)
    ensures var e := Unfolded(FRESH, evs); Running(e.cleanups, 0) && 3 in e.flushes && e.flushes[3].InBody?
  {
    hide Unfolds, Unfolded;
    evs := ThroughFirstCleanup();
    assert Unfolded(FRESH, evs).flushes[2] == AwaitsTask(0);
    UnfoldsMore(FRESH, evs, CleanupStarts(0));
    evs := evs + [CleanupStarts(0)];
    UnfoldsMore(FRESH, evs, Invalidate);
    evs := evs + [Invalidate];
    UnfoldsMore(FRESH, evs, FlushCall(3));
    evs := evs + [FlushCall(3)];
  }

  lemma {:induction false} NothingUnfolds(e: Effect)
    ensures Unfolds(e, []) && Unfolded(e, []) == e
  {
  }

  /** Two flushes whose bodies run at once: when both bodies return a cleanup, the first one
      returned is lost, overwritten by the other. */
  lemma {:induction false} OverlapLosesCleanup(e: Effect, i: nat, j: nat)
    requires i != j && i in e.flushes && j in e.flushes && e.flushes[i].InBody? && e.flushes[j].InBody?
    requires e.state != Disposed && !e.pending && !Awaited(e, |e.cleanups|)
    ensures var f := Do(e, BodyReturns(i, true));
            Possible(f, BodyReturns(j, true)) && Lost(Do(f, BodyReturns(j, true)), |e.cleanups|)
  {
  }

  /** Two calls to `flush` with an invalidation between them get there. */
  lemma {:induction false} OverlapReachable()
    ensures var e := Do(Do(Do(Do(FRESH, Invalidate), FlushCall(1)), Invalidate), FlushCall(2));
            e.flushes == map[1 := InBody, 2 := InBody] && e.state != Disposed && !e.pending && e.task.None?
  {
  }

  /** Invalidating while a flush is to rerun behind the running cleanup gets there: a third
      invalidation reports the effect as scheduled where the kernel keeps it queued. */
  lemma {:induction false} InvalidateLeavesKernel() returns (evs: seq<Event>)
    ensures Unfolds(FRESH, evs) && Unfolded(FRESH, evs).state == CleanupRunningScheduled
    ensures Invalidated(Unfolded(FRESH, evs)).state == Scheduled
    ensures KernelStep(CleanupRunningScheduled, KInvalidate) == CleanupRunningScheduled
  {
    hide Unfolds, Unfolded;
    evs := ThroughFirstCleanup();
    UnfoldsMore(FRESH, evs, Invalidate);
    evs := evs + [Invalidate];
  }

  /** Invalidating moves the state as the kernel says exactly when no rerun is already
      queued behind a running cleanup; then the state falls back to scheduled although the
      cleanup still runs. */
  lemma {:induction false} InvalidateFollowsKernelIff(e: Effect)
    ensures Invalidated(e).state == KernelStep(e.state, KInvalidate) <==> e.state != CleanupRunningScheduled
  {
  }

  // ----- the effect as the program keeps it -----

  /** Each method runs from a call or a resumption up to the next await; the suspended calls
      and the running cleanups stand for the event loop. */
  class AsyncEffect {
    var state: EffectState
    var pending: bool
    var cleanup: Option<nat>
    var task: Option<nat>
    var flushes: map<nat, Flush>
    var disposes: map<nat, Dispose>
    var cleanups: seq<Cleanup>
    ghost var bodies: nat

    ghost function View(): Effect
      reads this
    {
      Effect(state, pending, cleanup, task, flushes, disposes, cleanups, bodies)
    }

    constructor ()
      ensures View() == FRESH
    {
      state, pending, cleanup, task := Idle, false, None, None;
      flushes, disposes, cleanups, bodies := map[], map[], [], 0;
    }

    method Invalidate()
      modifies this
      ensures View() == Do(old(View()), Event.Invalidate)
    {
      if state == Disposed {
        return;
      }
      if state == CleanupRunning {
        state := CleanupRunningScheduled;
      } else {
        state := Scheduled;
      }
      pending := true;
    }

    /** `flush`, from its call. */
    method FlushStart(id: nat)
      requires id !in flushes
      modifies this
      ensures View() == Do(old(View()), FlushCall(id))
    {
      Loop(id);
    }

    method Loop(id: nat)
      modifies this
      ensures View() == LoopTop(old(View()), id)
    {
      if !pending || state == Disposed {
        flushes := flushes[id := FlushDone];
        return;
      }
      pending := false;
      var retained := cleanup;
      cleanup := None;
      if retained.Some? {
        state := CleanupRunning;
        task := retained;
        flushes := flushes[id := AwaitsTask(retained.value)];
        return;
      }
      RunBody(id);
    }

    method RunBody(id: nat)
      modifies this`flushes, this`bodies
      ensures View() == StartBody(old(View()), id)
    {
      flushes, bodies := flushes[id := InBody], bodies + 1;
    }

    /** `flush`, when the cleanup it awaits has ended. */
    method FlushContinue(id: nat)
      requires Possible(View(), FlushResumes(id))
      modifies this
      ensures View() == Do(old(View()), FlushResumes(id))
    {
      if flushes[id].LastCleanup? {
        flushes := flushes[id := FlushDone];
        return;
      }
      task := None;
      if state == Disposed {
        flushes := flushes[id := FlushDone];
        return;
      }
      RunBody(id);
    }

    /** `flush`, when the body has returned. */
    method FlushAfterBody(id: nat, withCleanup: bool)
      requires Possible(View(), BodyReturns(id, withCleanup))
      modifies this
      ensures View() == Do(old(View()), BodyReturns(id, withCleanup))
    {
      cleanup := None;
      if withCleanup {
        cleanup := Some(|cleanups|);
        cleanups := cleanups + [Cleanup(0, 0)];
      }
      if state == Disposed {
        var made := cleanup;
        cleanup := None;
        if made.Some? {
          cleanups := Started(cleanups, made.value);
          flushes := flushes[id := LastCleanup(made.value)];
        } else {
          flushes := flushes[id := FlushDone];
        }
        return;
      }
      state := if pending then Scheduled else Idle;
      Loop(id);
    }

    /** `dispose`, from its call. */
    method DisposeStart(id: nat)
      requires id !in disposes
      modifies this
      ensures View() == Do(old(View()), DisposeCall(id))
    {
      state, pending := Disposed, false;
      if task.Some? {
        if !Ended(cleanups, task.value) {
          disposes := disposes[id := AwaitsRunning(task.value)];
          return;
        }
        task := None;
      }
      RunRetained(id);
    }

    method RunRetained(id: nat)
      modifies this
      ensures View() == TakeCleanup(old(View()), id)
    {
      var retained := cleanup;
      cleanup := None;
      if retained.Some? {
        cleanups := Started(cleanups, retained.value);
        disposes := disposes[id := OwnCleanup(retained.value)];
      } else {
        disposes := disposes[id := DisposeDone];
      }
    }

    /** `dispose`, when the cleanup it awaits has ended. */
    method DisposeContinue(id: nat)
      requires Possible(View(), DisposeResumes(id))
      modifies this
      ensures View() == Do(old(View()), DisposeResumes(id))
    {
      if disposes[id].OwnCleanup? {
        disposes := disposes[id := DisposeDone];
        return;
      }
      task := None;
      RunRetained(id);
    }
  }
}
