/** The latest-value durable projection of `src/lazily/latest_durable_projection.py`: one
    in-flight attempt per key, fenced by a generation, over a conflated pending desire. */
module LatestDurable {
  import opened Wrappers
  import opened Sequences

  datatype Revision<V> = Revision(epoch: nat, value: V)

  datatype Envelope<K, V> = Envelope(generation: nat, key: K, epoch: nat, value: V)

  /** The state of one key; `accepted` is history: every accepted revision, oldest first. */
  datatype Entry<K, V> = Entry(
    desired: Option<Revision<V>>,
    inflight: Option<Envelope<K, V>>,
    durableThrough: Option<nat>,
    accepted: seq<Revision<V>>
  )

  /** `order` is the insertion order of the keys. */
  datatype Core<K, V> = Core(generation: nat, entries: map<K, Entry<K, V>>, order: seq<K>)

  function NewEntry<K, V>(): Entry<K, V> {
    Entry(None, None, None, [])
  }

  function NewCore<K, V>(generation: nat): Core<K, V> {
    Core(generation, map[], [])
  }

  // ----- transitions -----

  datatype UpsertKind =
    Accepted | UpsertUnchanged | AlreadyDurable(through: nat) | StaleEpoch(newest: nat) | EpochConflict

  datatype ClaimKind<K, V> = Claimed(envelope: Envelope<K, V>) | ClaimEmpty | Busy | ClaimStale(current: nat)

  datatype AckKind = Advanced(through: nat) | AckUnchanged(through: nat) | AckUnknown | AckStale(current: nat)

  datatype FailureKind = Pending | Superseded | FailUnknown | FailStale(current: nat)

  datatype ReconnectKind =
    | Reconnected(generation: nat, requeued: nat, superseded: nat)
    | SameGeneration(generation: nat)
    | ReconnectStale(current: nat)

  /** The newest of the pending and the in-flight revision. */
  function Newest<K, V>(e: Entry<K, V>): Option<Revision<V>> {
    if e.inflight.None? then e.desired
    else
      var i := Revision(e.inflight.value.epoch, e.inflight.value.value);
      if e.desired.None? || e.desired.value.epoch < i.epoch then Some(i) else e.desired
  }

  function EntryOr<K, V>(c: Core<K, V>, k: K): Entry<K, V> {
    if k in c.entries then c.entries[k] else NewEntry()
  }

  function Put<K, V>(c: Core<K, V>, k: K, e: Entry<K, V>): Core<K, V> {
    c.(entries := c.entries[k := e], order := if k in c.entries then c.order else c.order + [k])
  }

  /** `upsert_desired` on one entry. */
  function UpsertEntry<K, V(==)>(e: Entry<K, V>, epoch: nat, value: V): (Entry<K, V>, UpsertKind) {
    if e.durableThrough.Some? && epoch <= e.durableThrough.value then (e, AlreadyDurable(e.durableThrough.value))
    else
      var newest := Newest(e);
      if newest.Some? && epoch < newest.value.epoch then (e, StaleEpoch(newest.value.epoch))
      else if newest.Some? && epoch == newest.value.epoch
          then (e, if value == newest.value.value then UpsertUnchanged else EpochConflict)
      else (e.(desired := Some(Revision(epoch, value)), accepted := e.accepted + [Revision(epoch, value)]), Accepted)
  }

  function Upsert<K, V(==)>(c: Core<K, V>, k: K, epoch: nat, value: V): (Core<K, V>, UpsertKind) {
    var r := UpsertEntry(EntryOr(c, k), epoch, value);
    (Put(c, k, r.0), r.1)
  }

  function Claim<K, V>(c: Core<K, V>, k: K, generation: nat): (Core<K, V>, ClaimKind<K, V>) {
    if generation != c.generation then (c, ClaimStale(c.generation))
    else if k !in c.entries then (c, ClaimEmpty)
    else
      var e := c.entries[k];
      if e.inflight.Some? then (c, Busy)
      else if e.desired.None? then (c, ClaimEmpty)
      else
        var v := Envelope(generation, k, e.desired.value.epoch, e.desired.value.value);
        (Put(c, k, e.(desired := None, inflight := Some(v))), Claimed(v))
  }

  function Ack<K, V>(c: Core<K, V>, k: K, generation: nat, epoch: nat): (Core<K, V>, AckKind) {
    if generation != c.generation then (c, AckStale(c.generation))
    else if k !in c.entries then (c, AckUnknown)
    else
      var e := c.entries[k];
      if e.inflight.None? || e.inflight.value.epoch != epoch then
        (c, if e.durableThrough.Some? && epoch <= e.durableThrough.value then AckUnchanged(e.durableThrough.value)
            else AckUnknown)
      else
        var through := e.durableThrough;
        var durable := if through.Some? && through.value > epoch then through.value else epoch;
        (Put(c, k, e.(inflight := None, durableThrough := Some(durable))),
         if e.durableThrough.Some? && e.durableThrough.value >= epoch then AckUnchanged(durable) else Advanced(durable))
  }

  /** An attempt that did not reach the sink: pending again, unless a newer desire waits. */
  function Returned<K, V>(e: Entry<K, V>): Entry<K, V> {
    if e.inflight.None? then e
    else if e.desired.Some? && e.desired.value.epoch > e.inflight.value.epoch then e.(inflight := None)
    else e.(inflight := None, desired := Some(Revision(e.inflight.value.epoch, e.inflight.value.value)))
  }

  predicate SupersededBy<K, V>(e: Entry<K, V>) {
    e.inflight.Some? && e.desired.Some? && e.desired.value.epoch > e.inflight.value.epoch
  }

  function Fail<K, V>(c: Core<K, V>, k: K, generation: nat, epoch: nat): (Core<K, V>, FailureKind) {
    if generation != c.generation then (c, FailStale(c.generation))
    else if k !in c.entries || c.entries[k].inflight.None? || c.entries[k].inflight.value.epoch != epoch
        then (c, FailUnknown)
    else (Put(c, k, Returned(c.entries[k])), if SupersededBy(c.entries[k]) then Superseded else Pending)
  }

  function Reconnect<K, V>(c: Core<K, V>, generation: nat): (Core<K, V>, ReconnectKind) {
    if generation < c.generation then (c, ReconnectStale(c.generation))
    else if generation == c.generation then (c, SameGeneration(generation))
    else
      (c.(generation := generation, entries := map k | k in c.entries :: Returned(c.entries[k])),
       Reconnected(generation,
                   |set k | k in c.entries && c.entries[k].inflight.Some? && !SupersededBy(c.entries[k])|,
                   |set k | k in c.entries && SupersededBy(c.entries[k])|))
  }

  datatype Event<K, V> =
    | EUpsert(key: K, epoch: nat, value: V)
    | EClaim(key: K, generation: nat)
    | EAck(key: K, generation: nat, epoch: nat)
    | EFail(key: K, generation: nat, epoch: nat)
    | EReconnect(generation: nat)

  function Step<K, V(==)>(c: Core<K, V>, e: Event<K, V>): Core<K, V> {
    match e
    case EUpsert(k, epoch, value) => Upsert(c, k, epoch, value).0
    case EClaim(k, g) => Claim(c, k, g).0
    case EAck(k, g, epoch) => Ack(c, k, g, epoch).0
    case EFail(k, g, epoch) => Fail(c, k, g, epoch).0
    case EReconnect(g) => Reconnect(c, g).0
  }

  function Run<K, V(==)>(c: Core<K, V>, es: seq<Event<K, V>>): Core<K, V>
    decreases |es|
  {
    if es == [] then c else Run(Step(c, es[0]), es[1..])
  }

  /** The change flag each transition reports. */
  predicate Changed<K, V(==)>(c: Core<K, V>, e: Event<K, V>) {
    match e
    case EUpsert(k, epoch, value) => Upsert(c, k, epoch, value).1.Accepted?
    case EClaim(k, g) => Claim(c, k, g).1.Claimed?
    case EAck(k, g, epoch) =>
      g == c.generation && k in c.entries && c.entries[k].inflight.Some? && c.entries[k].inflight.value.epoch == epoch
    case EFail(k, g, epoch) => Fail(c, k, g, epoch).1.Pending? || Fail(c, k, g, epoch).1.Superseded?
    case EReconnect(g) => Reconnect(c, g).1.Reconnected?
  }

  // ----- what every run keeps -----

  /** Epochs ascend from durable over in-flight to pending. */
  predicate Ascending<K, V>(e: Entry<K, V>) {
    && (e.durableThrough.Some? && e.inflight.Some? ==> e.durableThrough.value < e.inflight.value.epoch)
    && (e.inflight.Some? && e.desired.Some? ==> e.inflight.value.epoch < e.desired.value.epoch)
    && (e.durableThrough.Some? && e.desired.Some? ==> e.durableThrough.value < e.desired.value.epoch)
  }

  /** What is pending, in flight or durable was accepted, and the newest accepted revision
      is pending, in flight, or durable. */
  ghost predicate Retained<K, V>(e: Entry<K, V>) {
    && (forall i, j :: 0 <= i < j < |e.accepted| ==> e.accepted[i].epoch < e.accepted[j].epoch)
    && (e.desired.Some? ==> e.desired.value in e.accepted)
    && (e.inflight.Some? ==> Revision(e.inflight.value.epoch, e.inflight.value.value) in e.accepted)
    && (e.durableThrough.Some? ==> exists r :: r in e.accepted && r.epoch == e.durableThrough.value)
    && (if e.accepted == [] then Newest(e).None? && e.durableThrough.None?
        else
          var last := e.accepted[|e.accepted| - 1];
          if Newest(e).Some? then Newest(e) == Some(last) else e.durableThrough == Some(last.epoch))
  }

  ghost predicate SoundEntry<K, V>(k: K, generation: nat, e: Entry<K, V>) {
    && Ascending(e) && Retained(e)
    && (e.inflight.Some? ==> e.inflight.value.generation == generation && e.inflight.value.key == k)
    && e.accepted != []
  }

  ghost predicate Sound<K, V>(c: Core<K, V>) {
    && (forall k :: k in c.entries ==> SoundEntry(k, c.generation, c.entries[k]))
    && Distinct(c.order) && Elements(c.order) == c.entries.Keys
  }

  lemma {:induction false} UpsertSound<K, V>(k: K, g: nat, e: Entry<K, V>, epoch: nat, value: V)
    requires SoundEntry(k, g, e) || e == NewEntry()
    ensures SoundEntry(k, g, UpsertEntry(e, epoch, value).0)
    ensures UpsertEntry(e, epoch, value).1.Accepted? <==> UpsertEntry(e, epoch, value).0 != e
  {
    var r := UpsertEntry(e, epoch, value);
    if r.1.Accepted? {
      var last := Revision(epoch, value);
      assert r.0.accepted == e.accepted + [last];
      assert forall x :: x in e.accepted ==> x in r.0.accepted;
      assert last in r.0.accepted;
      forall i | 0 <= i < |e.accepted| ensures e.accepted[i].epoch < epoch {
      }
    }
  }

  lemma {:induction false} ReturnedSound<K, V>(k: K, g: nat, g': nat, e: Entry<K, V>)
    requires SoundEntry(k, g, e)
    ensures SoundEntry(k, g', Returned(e)) && Newest(Returned(e)) == Newest(e)
  {
  }

  lemma {:induction false} PutSound<K, V>(c: Core<K, V>, k: K, e: Entry<K, V>)
    requires Sound(c) && SoundEntry(k, c.generation, e)
    ensures Sound(Put(c, k, e))
  {
    hide SoundEntry;
    if k !in c.entries {
      assert k !in Elements(c.order);
      forall x ensures x in c.order + [k] <==> x in c.order || x == k {
      }
    }
  }

  lemma {:induction false} ClaimSound<K, V>(c: Core<K, V>, k: K, g: nat)
    requires Sound(c)
    ensures Sound(Claim(c, k, g).0)
  {
    if Claim(c, k, g).1.Claimed? {
      var e := Claim(c, k, g).0.entries[k];
      assert SoundEntry(k, c.generation, e);
      PutSound(c, k, e);
    }
  }

  lemma {:induction false} AckSound<K, V>(c: Core<K, V>, k: K, g: nat, epoch: nat)
    requires Sound(c)
    ensures Sound(Ack(c, k, g, epoch).0)
  {
    if Changed(c, EAck(k, g, epoch)) {
      var e := c.entries[k];
      assert SoundEntry(k, c.generation, e);
      var acked := e.(inflight := None, durableThrough := Some(epoch));
      assert Ack(c, k, g, epoch).0 == Put(c, k, acked);
      hide Sound, SoundEntry, Retained, Ack, Changed, Put;
      AckedSound(k, c.generation, e);
      PutSound(c, k, acked);
    }
  }

  lemma {:induction false} AckedSound<K, V>(k: K, g: nat, e: Entry<K, V>)
    requires SoundEntry(k, g, e) && e.inflight.Some?
    ensures SoundEntry(k, g, e.(inflight := None, durableThrough := Some(e.inflight.value.epoch)))
  {
  }

  lemma {:induction false} StepSound<K, V>(c: Core<K, V>, e: Event<K, V>)
    requires Sound(c)
    ensures Sound(Step(c, e))
  {
    hide Ascending, Retained, Claim, Ack, Returned, UpsertEntry;
    match e
    case EUpsert(k, epoch, value) =>
      UpsertSound(k, c.generation, EntryOr(c, k), epoch, value);
      PutSound(c, k, UpsertEntry(EntryOr(c, k), epoch, value).0);
    case EClaim(k, g) => ClaimSound(c, k, g);
    case EAck(k, g, epoch) => AckSound(c, k, g, epoch);
    case EFail(k, g, epoch) =>
      if Changed(c, e) {
        ReturnedSound(k, g, g, c.entries[k]);
        PutSound(c, k, Returned(c.entries[k]));
      }
    case EReconnect(g) =>
      forall k | k in c.entries ensures SoundEntry(k, g, Returned(c.entries[k])) {
        ReturnedSound(k, c.generation, g, c.entries[k]);
      }
  }

  /** Every run from an empty core keeps every entry sound. */
  lemma {:induction false} RunSound<K, V>(c: Core<K, V>, es: seq<Event<K, V>>)
    requires Sound(c)
    ensures Sound(Run(c, es))
    decreases |es|
  {
    hide Sound, Step;
    if es != [] {
      StepSound(c, es[0]);
      RunSound(Step(c, es[0]), es[1..]);
    }
  }

  // ----- the guarantees -----

  /** Whatever happens, epochs ascend from durable over in-flight to pending, in-flight work
      carries the current generation, and the newest accepted revision is pending, in
      flight, or durable. */
  lemma {:induction false} NewestIsRetained<K, V>(generation: nat, es: seq<Event<K, V>>, k: K)
    requires k in Run(NewCore<K, V>(generation), es).entries
    ensures var c := Run(NewCore<K, V>(generation), es); var e := c.entries[k];
            && Ascending(e)
            && (e.inflight.Some? ==> e.inflight.value.generation == c.generation && e.inflight.value.key == k)
            && e.accepted != []
            && var last := e.accepted[|e.accepted| - 1];
               Newest(e) == Some(last) || (Newest(e).None? && e.durableThrough == Some(last.epoch))
  {
    assert Sound(NewCore<K, V>(generation));
    RunSound(NewCore<K, V>(generation), es);
    hide Run;
  }

  /** A claim hands out the newest accepted revision. */
  lemma {:induction false} ClaimHandsNewest<K, V>(c: Core<K, V>, k: K, g: nat)
    requires Sound(c) && Claim(c, k, g).1.Claimed?
    ensures var v := Claim(c, k, g).1.envelope; var accepted := c.entries[k].accepted;
            k in c.entries && v.key == k && v.generation == c.generation
            && accepted != [] && accepted[|accepted| - 1] == Revision(v.epoch, v.value)
  {
    assert SoundEntry(k, c.generation, c.entries[k]);
  }

  /** Acknowledging the attempt in flight always advances. */
  lemma {:induction false} AckAdvances<K, V>(c: Core<K, V>, k: K, g: nat, epoch: nat)
    requires Sound(c) && Changed(c, EAck(k, g, epoch))
    ensures Ack(c, k, g, epoch).1 == Advanced(epoch) && Ack(c, k, g, epoch).0.entries[k].durableThrough == Some(epoch)
  {
    assert SoundEntry(k, c.generation, c.entries[k]);
  }

  /** What is durable never falls back. */
  lemma {:induction false} DurableNeverFalls<K, V>(c: Core<K, V>, es: seq<Event<K, V>>, k: K)
    requires k in c.entries && c.entries[k].durableThrough.Some?
    ensures k in Run(c, es).entries && Run(c, es).entries[k].durableThrough.Some?
    ensures Run(c, es).entries[k].durableThrough.value >= c.entries[k].durableThrough.value
    decreases |es|
  {
    if es != [] {
      StepKeepsDurable(c, es[0], k);
      hide Step;
      DurableNeverFalls(Step(c, es[0]), es[1..], k);
    }
  }

  lemma {:induction false} StepKeepsDurable<K, V>(c: Core<K, V>, e: Event<K, V>, k: K)
    requires k in c.entries && c.entries[k].durableThrough.Some?
    ensures k in Step(c, e).entries && Step(c, e).entries[k].durableThrough.Some?
    ensures Step(c, e).entries[k].durableThrough.value >= c.entries[k].durableThrough.value
  {
  }

  lemma {:induction false} GenerationNeverFalls<K, V>(c: Core<K, V>, es: seq<Event<K, V>>)
    ensures Run(c, es).generation >= c.generation
    decreases |es|
  {
    if es != [] {
      var d := Step(c, es[0]);
      assert d.generation >= c.generation;
      hide Step;
      GenerationNeverFalls(d, es[1..]);
    }
  }

  /** A late answer of a fenced generation changes nothing, whatever happened since. */
  lemma {:induction false} FencedAnswersIdle<K, V>(c: Core<K, V>, es: seq<Event<K, V>>, g: nat, k: K, epoch: nat)
    requires g < c.generation
    ensures var d := Run(c, es);
            Ack(d, k, g, epoch) == (d, AckStale(d.generation)) && Fail(d, k, g, epoch) == (d, FailStale(d.generation))
            && Claim(d, k, g) == (d, ClaimStale(d.generation))
  {
    GenerationNeverFalls(c, es);
  }

  /** What an observer sees: the history is not part of it. */
  function Snapshot<K, V>(c: Core<K, V>): (nat, map<K, Entry<K, V>>, seq<K>) {
    (c.generation, map k | k in c.entries :: c.entries[k].(accepted := []), c.order)
  }

  function Shown<K, V>(e: Entry<K, V>): Entry<K, V> {
    e.(accepted := [])
  }

  /** A transition of one key replaces its entry visibly, or leaves the core as it is. */
  lemma {:induction false} StepShape<K, V>(c: Core<K, V>, e: Event<K, V>) returns (x: Entry<K, V>)
    requires Sound(c) && !e.EReconnect?
    ensures Changed(c, e) ==> Step(c, e) == Put(c, e.key, x)
    ensures Changed(c, e) && e.key in c.entries ==> Shown(x) != Shown(c.entries[e.key])
    ensures !Changed(c, e) ==> Step(c, e) == c
  {
    x := NewEntry();
    match e
    case EUpsert(k, epoch, value) =>
      x := UpsertEntry(EntryOr(c, k), epoch, value).0;
      if k in c.entries {
        assert SoundEntry(k, c.generation, c.entries[k]);
        assert c.entries[k := c.entries[k]] == c.entries;
      }
    case EClaim(k, g) => if Changed(c, e) { x := Claim(c, k, g).0.entries[k]; }
    case EAck(k, g, epoch) => if Changed(c, e) { x := Ack(c, k, g, epoch).0.entries[k]; }
    case EFail(k, g, epoch) => if Changed(c, e) { x := Returned(c.entries[k]); }
  }

  lemma {:induction false} PutShows<K, V>(c: Core<K, V>, k: K, x: Entry<K, V>)
    requires k in c.entries ==> Shown(x) != Shown(c.entries[k])
    ensures Snapshot(Put(c, k, x)) != Snapshot(c)
  {
    hide Shown;
    var a, b := Snapshot(c).1, Snapshot(Put(c, k, x)).1;
    assert k in b && b[k] == Put(c, k, x).entries[k].(accepted := []) == x.(accepted := []);
    if k in c.entries {
      assert a[k] == c.entries[k].(accepted := []);
      assert Shown(x) == x.(accepted := []) && Shown(c.entries[k]) == c.entries[k].(accepted := [])
          by { ShownIs(x); ShownIs(c.entries[k]); }
    } else {
      assert k !in a;
    }
  }

  lemma {:induction false} ShownIs<K, V>(x: Entry<K, V>)
    ensures Shown(x) == x.(accepted := [])
  {
  }

  /** The change flag is set exactly when the snapshot changed. */
  lemma {:induction false} ChangedIff<K, V>(c: Core<K, V>, e: Event<K, V>)
    requires Sound(c)
    ensures Changed(c, e) <==> Snapshot(Step(c, e)) != Snapshot(c)
  {
    if !e.EReconnect? {
      var x := StepShape(c, e);
      hide Step, Changed, Snapshot;
      if Changed(c, e) { PutShows(c, e.key, x); }
    }
  }
}
