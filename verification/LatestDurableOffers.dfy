/** What the projection owes to the desires it was offered: which it accepts, and that the
    newest of them is kept until the sink has it. */
module LatestDurableOffers {
  import opened Wrappers
  import opened Sequences
  import opened LatestDurable

  predicate Above(epoch: nat, bound: Option<nat>) {
    bound.Some? ==> epoch > bound.value
  }

  function DesiredEpoch<K, V>(e: Entry<K, V>): Option<nat> {
    if e.desired.Some? then Some(e.desired.value.epoch) else None
  }

  function InflightEpoch<K, V>(e: Entry<K, V>): Option<nat> {
    if e.inflight.Some? then Some(e.inflight.value.epoch) else None
  }

  ghost predicate Attempts<K, V>(e: Entry<K, V>, epoch: nat, value: V) {
    e.inflight.Some? && e.inflight.value.epoch == epoch && e.inflight.value.value == value
  }

  /** A desire is accepted exactly when its epoch exceeds everything durable, in flight and
      pending; it then is the pending one, and nothing else changes. */
  lemma {:induction false} AcceptedIff<K, V>(e: Entry<K, V>, epoch: nat, value: V)
    ensures var r := UpsertEntry(e, epoch, value);
            && (r.1.Accepted? <==> (Above(epoch, e.durableThrough) && Above(epoch, DesiredEpoch(e))
                                    && Above(epoch, InflightEpoch(e))))
            && (r.1.Accepted? ==> r.0 == e.(desired := Some(Revision(epoch, value)), accepted := r.0.accepted))
            && (!r.1.Accepted? ==> r.0 == e)
  {
  }

  /** The reason for every refusal: durable already, else older than the newest retained
      revision, else the same epoch with the same or with another value. */
  lemma {:induction false} RefusedIff<K, V>(e: Entry<K, V>, epoch: nat, value: V)
    requires Ascending(e)
    ensures var kind := UpsertEntry(e, epoch, value).1;
            var newest := if e.desired.Some? then DesiredEpoch(e) else InflightEpoch(e);
            && (kind.AlreadyDurable? <==> !Above(epoch, e.durableThrough))
            && (kind.AlreadyDurable? ==> Some(kind.through) == e.durableThrough)
            && (kind.StaleEpoch? <==> Above(epoch, e.durableThrough) && newest.Some? && epoch < newest.value)
            && (kind.StaleEpoch? ==> Some(kind.newest) == newest)
            && (kind.UpsertUnchanged? <==> e.desired == Some(Revision(epoch, value))
                                           || (e.desired.None? && Attempts(e, epoch, value)))
            && (kind.EpochConflict? <==> newest == Some(epoch) && !kind.UpsertUnchanged?)
  {
  }

  // ----- the offers of a run -----

  predicate Offers<K(==), V>(e: Event<K, V>, k: K) {
    e.EUpsert? && e.key == k
  }

  /** The offers that exceeded every earlier one, oldest first. */
  function Records<K(==), V>(es: seq<Event<K, V>>, k: K): seq<Revision<V>>
    decreases |es|
  {
    if es == [] then []
    else
      var r, e := Records(es[..|es| - 1], k), es[|es| - 1];
      if Offers(e, k) && (r == [] || e.epoch > r[|r| - 1].epoch) then r + [Revision(e.epoch, e.value)] else r
  }

  /** A sound entry accepts exactly what exceeds the last revision it accepted. */
  lemma {:induction false} AcceptsRecords<K, V>(k: K, g: nat, e: Entry<K, V>, epoch: nat, value: V)
    requires SoundEntry(k, g, e) || e == NewEntry()
    ensures var a := UpsertEntry(e, epoch, value).0.accepted;
            a == if e.accepted == [] || epoch > e.accepted[|e.accepted| - 1].epoch
                 then e.accepted + [Revision(epoch, value)] else e.accepted
  {
    AcceptedIff(e, epoch, value);
  }

  lemma {:induction false} StepAccepts<K, V>(c: Core<K, V>, e: Event<K, V>, k: K)
    requires Sound(c)
    ensures var a := EntryOr(c, k).accepted;
            EntryOr(Step(c, e), k).accepted
            == if Offers(e, k) && (a == [] || e.epoch > a[|a| - 1].epoch) then a + [Revision(e.epoch, e.value)] else a
    ensures k in Step(c, e).entries <==> k in c.entries || Offers(e, k)
  {
    if Offers(e, k) {
      assert k in c.entries ==> SoundEntry(k, c.generation, c.entries[k]);
      hide Sound, SoundEntry, UpsertEntry;
      AcceptsRecords(k, c.generation, EntryOr(c, k), e.epoch, e.value);
    } else {
      OthersAccept(c, e, k);
    }
  }

  lemma {:induction false} OthersAccept<K, V>(c: Core<K, V>, e: Event<K, V>, k: K)
    requires !Offers(e, k)
    ensures EntryOr(Step(c, e), k).accepted == EntryOr(c, k).accepted
    ensures k in Step(c, e).entries <==> k in c.entries
  {
    hide UpsertEntry;
  }

  lemma {:induction false} RunSnoc<K, V>(c: Core<K, V>, es: seq<Event<K, V>>)
    requires es != []
    ensures Run(c, es) == Step(Run(c, es[..|es| - 1]), es[|es| - 1])
    decreases |es|
  {
    hide Step;
    if |es| > 1 {
      assert es[1..][..|es| - 2] == es[..|es| - 1][1..];
      RunSnoc(Step(c, es[0]), es[1..]);
    } else {
      assert es[1..] == [] && es[..0] == [];
    }
  }

  ghost predicate Offered<K, V>(es: seq<Event<K, V>>, k: K) {
    exists i :: 0 <= i < |es| && Offers(es[i], k)
  }

  lemma {:induction false} OfferedSnoc<K, V>(es: seq<Event<K, V>>, k: K)
    requires es != []
    ensures Offered(es, k) <==> Offers(es[|es| - 1], k) || Offered(es[..|es| - 1], k)
  {
    var front := es[..|es| - 1];
    if Offered(front, k) {
      var i :| 0 <= i < |front| && Offers(front[i], k);
      assert es[i] == front[i];
    }
    if Offered(es, k) && !Offers(es[|es| - 1], k) {
      var i :| 0 <= i < |es| && Offers(es[i], k);
      assert es[i] == front[i];
    }
  }

  /** Over any run the revisions accepted for a key are the offers that exceeded every
      earlier one, whatever was claimed, acknowledged, failed or fenced between them. */
  lemma {:induction false} AcceptedAreRecords<K, V>(generation: nat, es: seq<Event<K, V>>, k: K)
    ensures var c := Run(NewCore<K, V>(generation), es);
            EntryOr(c, k).accepted == Records(es, k)
            && (k in c.entries <==> Offered(es, k))
    decreases |es|
  {
    if es == [] {
      assert !Offered(es, k);
    } else {
      var front := es[..|es| - 1];
      RunSnoc(NewCore<K, V>(generation), es);
      AcceptedAreRecords(generation, front, k);
      assert Sound(NewCore<K, V>(generation));
      RunSound(NewCore<K, V>(generation), front);
      hide Sound, Step, Run, Offers, Offered;
      StepAccepts(Run(NewCore<K, V>(generation), front), es[|es| - 1], k);
      OfferedSnoc(es, k);
    }
  }

  /** The last record is the first offer of the greatest epoch. */
  lemma {:induction false} LastRecordIs<K, V>(es: seq<Event<K, V>>, k: K, i: nat)
    requires i < |es| && Offers(es[i], k)
    requires forall j :: 0 <= j < i && Offers(es[j], k) ==> es[j].epoch < es[i].epoch
    requires forall j :: i < j < |es| && Offers(es[j], k) ==> es[j].epoch <= es[i].epoch
    ensures var r := Records(es, k); r != [] && r[|r| - 1] == Revision(es[i].epoch, es[i].value)
    decreases |es|
  {
    var front := es[..|es| - 1];
    assert forall j :: 0 <= j < |front| ==> front[j] == es[j];
    if i < |es| - 1 {
      LastRecordIs(front, k, i);
    } else if Records(front, k) != [] {
      RecordsAreOffers(front, k);
      var r := Records(front, k);
      var j :| 0 <= j < |front| && Offers(front[j], k) && r[|r| - 1] == Revision(front[j].epoch, front[j].value);
      assert es[j].epoch < es[i].epoch;
    }
  }

  lemma {:induction false} RecordsAreOffers<K, V>(es: seq<Event<K, V>>, k: K)
    ensures forall n :: 0 <= n < |Records(es, k)| ==>
              exists i :: 0 <= i < |es| && Offers(es[i], k) && Records(es, k)[n] == Revision(es[i].epoch, es[i].value)
    decreases |es|
  {
    if es == [] {
      assert Records(es, k) == [];
    } else {
      var front := es[..|es| - 1];
      RecordsAreOffers(front, k);
      forall n | 0 <= n < |Records(es, k)|
        ensures exists i :: 0 <= i < |es| && Offers(es[i], k) && Records(es, k)[n] == Revision(es[i].epoch, es[i].value)
      {
        if n < |Records(front, k)| {
          var i :| 0 <= i < |front| && Offers(front[i], k)
              && Records(front, k)[n] == Revision(front[i].epoch, front[i].value);
          assert es[i] == front[i];
        } else {
          var e := es[|es| - 1];
          assert Offers(e, k) && Records(es, k) == Records(front, k) + [Revision(e.epoch, e.value)];
        }
      }
    }
  }

  /** An offer that exceeds all earlier ones is pending, in flight, or durable from then on,
      until a greater one comes. */
  lemma {:induction false} NewestOfferIsKept<K, V>(generation: nat, es: seq<Event<K, V>>, k: K, i: nat)
    requires i < |es| && Offers(es[i], k)
    requires forall j :: 0 <= j < i && Offers(es[j], k) ==> es[j].epoch < es[i].epoch
    requires forall j :: i < j < |es| && Offers(es[j], k) ==> es[j].epoch <= es[i].epoch
    ensures var c := Run(NewCore<K, V>(generation), es);
            k in c.entries
            && (|| c.entries[k].desired == Some(Revision(es[i].epoch, es[i].value))
                || (c.entries[k].desired.None? && Attempts(c.entries[k], es[i].epoch, es[i].value))
                || (c.entries[k].desired.None? && c.entries[k].inflight.None?
                    && c.entries[k].durableThrough == Some(es[i].epoch)))
  {
    AcceptedAreRecords(generation, es, k);
    LastRecordIs(es, k, i);
    NewestIsRetained(generation, es, k);
    hide Run, Records, Retained;
  }

  // ----- a round with the sink -----

  /** What a claim answers, and that a claimed revision is the one in flight afterwards. */
  lemma {:induction false} ClaimedIff<K, V>(c: Core<K, V>, k: K, g: nat)
    ensures var e := EntryOr(c, k); var r := Claim(c, k, g);
            && (r.1.ClaimStale? <==> g != c.generation)
            && (r.1.Busy? <==> g == c.generation && e.inflight.Some?)
            && (r.1.Claimed? <==> g == c.generation && e.inflight.None? && e.desired.Some?)
            && (r.1.Claimed? ==> EntryOr(r.0, k) == e.(desired := None, inflight := Some(r.1.envelope))
                                 && Some(Revision(r.1.envelope.epoch, r.1.envelope.value)) == e.desired)
            && (!r.1.Claimed? ==> r.0 == c)
  {
  }

  /** From every reachable state one round of reconnect, claim and acknowledgement makes the
      newest accepted revision of a key durable, unless it was before. */
  lemma {:induction false} RoundSettles<K, V>(c: Core<K, V>, k: K, g: nat)
    requires Sound(c) && k in c.entries && g > c.generation
    ensures var last := c.entries[k].accepted[|c.entries[k].accepted| - 1];
            c.entries[k].accepted != []
            && var d := Run(c, [EReconnect(g), EClaim(k, g), EAck(k, g, last.epoch)]);
               d.generation == g && k in d.entries && d.entries[k].durableThrough == Some(last.epoch)
               && d.entries[k].desired.None? && d.entries[k].inflight.None?
  {
    var e := c.entries[k];
    assert SoundEntry(k, c.generation, e);
    hide Sound;
    var last := e.accepted[|e.accepted| - 1];
    EntrySettles(k, c.generation, e);
    RunThree(c, EReconnect(g), EClaim(k, g), EAck(k, g, last.epoch));
    var r := Step(c, EReconnect(g));
    assert r.generation == g && k in r.entries && r.entries[k] == Returned(e);
    hide SoundEntry, Run, Returned, Step;
    ClaimAckSettles(r, k, last);
  }

  /** A claim and its acknowledgement settle what is pending. */
  lemma {:induction false} ClaimAckSettles<K, V>(c: Core<K, V>, k: K, last: Revision<V>)
    requires k in c.entries && c.entries[k].inflight.None?
    requires var e := c.entries[k];
             if e.desired.Some? then e.desired == Some(last) && Above(last.epoch, e.durableThrough)
             else e.durableThrough == Some(last.epoch)
    ensures var d := Step(Step(c, EClaim(k, c.generation)), EAck(k, c.generation, last.epoch));
            d.generation == c.generation && k in d.entries && d.entries[k].durableThrough == Some(last.epoch)
            && d.entries[k].desired.None? && d.entries[k].inflight.None?
  {
  }

  /** Taken back, the newest accepted revision is pending, or it is durable already. */
  lemma {:induction false} EntrySettles<K, V>(k: K, g: nat, e: Entry<K, V>)
    requires SoundEntry(k, g, e)
    ensures var last := e.accepted[|e.accepted| - 1]; var f := Returned(e);
            f.inflight.None? && f.durableThrough == e.durableThrough
            && (if f.desired.Some? then f.desired == Some(last) && Above(last.epoch, f.durableThrough)
                else f.durableThrough == Some(last.epoch))
  {
  }

  lemma {:induction false} RunThree<K, V>(c: Core<K, V>, x: Event<K, V>, y: Event<K, V>, z: Event<K, V>)
    ensures Run(c, [x, y, z]) == Step(Step(Step(c, x), y), z)
  {
    hide Step;
    assert [x, y, z][1..] == [y, z] && [y, z][1..] == [z] && [z][1..] == [];
    assert Run(Step(Step(Step(c, x), y), z), []) == Step(Step(Step(c, x), y), z);
    assert Run(Step(Step(c, x), y), [z]) == Step(Step(Step(c, x), y), z);
    assert Run(Step(c, x), [y, z]) == Step(Step(Step(c, x), y), z);
  }

  /** A failure returns the attempt to the pending slot exactly when nothing newer waits there;
      the newer one stays otherwise. */
  lemma {:induction false} FailedIff<K, V>(c: Core<K, V>, k: K, g: nat, epoch: nat)
    requires Sound(c)
    ensures var e := EntryOr(c, k); var r := Fail(c, k, g, epoch);
            var hit := g == c.generation && InflightEpoch(e) == Some(epoch);
            && (r.1.Pending? <==> hit && e.desired.None?) && (r.1.Superseded? <==> hit && e.desired.Some?)
            && (r.1.FailStale? <==> g != c.generation) && (!hit ==> r.0 == c)
            && (hit ==> var f := EntryOr(r.0, k);
                        f.inflight.None? && f.durableThrough == e.durableThrough
                        && f.desired == if e.desired.Some? then e.desired
                                        else Some(Revision(epoch, e.inflight.value.value)))
  {
    if k in c.entries { assert SoundEntry(k, c.generation, c.entries[k]); }
  }

  /** The keys with an attempt in flight, with or without a desire waiting behind it. */
  function Attempted<K, V>(c: Core<K, V>, waiting: bool): set<K> {
    set k | k in c.entries && c.entries[k].inflight.Some? && c.entries[k].desired.Some? == waiting
  }

  /** A reconnect to a newer generation takes every attempt back; the two counts are the keys
      whose attempt is pending again and those for which a newer desire was waiting. */
  lemma {:induction false} ReconnectedCounts<K, V>(c: Core<K, V>, g: nat)
    requires Sound(c)
    ensures var r := Reconnect(c, g);
            && (r.1.Reconnected? <==> g > c.generation) && (r.1.ReconnectStale? <==> g < c.generation)
            && (r.1.Reconnected? ==>
                  && r.1.requeued == |Attempted(c, false)|
                  && r.1.superseded == |Attempted(c, true)|
                  && r.0.entries.Keys == c.entries.Keys
                  && forall k :: k in c.entries ==>
                       r.0.entries[k].inflight.None? && r.0.entries[k].durableThrough == c.entries[k].durableThrough
                       && Newest(r.0.entries[k]) == Newest(c.entries[k]))
  {
    forall k | k in c.entries ensures TakenBack(c.entries[k]) {
      assert SoundEntry(k, c.generation, c.entries[k]);
      TakesBack(k, c.generation, c.entries[k]);
    }
    hide Sound, Returned, Newest;
    assert (set k | k in c.entries && c.entries[k].inflight.Some? && !SupersededBy(c.entries[k]))
        == Attempted(c, false);
    assert (set k | k in c.entries && SupersededBy(c.entries[k])) == Attempted(c, true);
  }

  ghost predicate TakenBack<K, V>(e: Entry<K, V>) {
    && (SupersededBy(e) <==> e.inflight.Some? && e.desired.Some?)
    && Returned(e).inflight.None? && Returned(e).durableThrough == e.durableThrough && Newest(Returned(e)) == Newest(e)
  }

  lemma {:induction false} TakesBack<K, V>(k: K, g: nat, e: Entry<K, V>)
    requires SoundEntry(k, g, e)
    ensures TakenBack(e)
  {
    hide Retained;
  }

  /** What an acknowledgement answers: it advances exactly on the attempt in flight, and an old
      one is told what is durable already. */
  lemma {:induction false} AckedIff<K, V>(c: Core<K, V>, k: K, g: nat, epoch: nat)
    requires Sound(c)
    ensures var e := EntryOr(c, k); var r := Ack(c, k, g, epoch);
            var hit := g == c.generation && InflightEpoch(e) == Some(epoch);
            && (r.1.AckStale? <==> g != c.generation) && (r.1.AckStale? ==> r.1.current == c.generation)
            && (r.1.Advanced? <==> hit) && (r.1.Advanced? ==> r.1.through == epoch)
            && (r.1.AckUnchanged? <==> g == c.generation && !hit && !Above(epoch, e.durableThrough))
            && (r.1.AckUnchanged? ==> Some(r.1.through) == e.durableThrough)
            && (hit ==> EntryOr(r.0, k) == e.(inflight := None, durableThrough := Some(epoch)))
            && (!hit ==> r.0 == c)
  {
    if k in c.entries { assert SoundEntry(k, c.generation, c.entries[k]); }
  }

  /** Refused generations are told the current one, and nothing changes. */
  lemma {:induction false} StaleReconnectsIdle<K, V>(c: Core<K, V>, g: nat)
    ensures var r := Reconnect(c, g);
            && (g < c.generation ==> r == (c, ReconnectStale(c.generation)))
            && (g == c.generation ==> r == (c, SameGeneration(g)))
            && (g > c.generation ==> r.1.generation == g && r.0.generation == g && r.0.order == c.order)
  {
  }

  /** The keys in the order in which they were first offered. */
  function FirstOffers<K(==), V>(es: seq<Event<K, V>>): seq<K>
    decreases |es|
  {
    if es == [] then []
    else
      var r, e := FirstOffers(es[..|es| - 1]), es[|es| - 1];
      if e.EUpsert? && e.key !in r then r + [e.key] else r
  }

  /** The snapshot lists the keys in this order. */
  lemma {:induction false} OrderIsFirstOffers<K, V>(generation: nat, es: seq<Event<K, V>>)
    ensures Run(NewCore<K, V>(generation), es).order == FirstOffers(es)
    decreases |es|
  {
    if es != [] {
      var front := es[..|es| - 1];
      RunSnoc(NewCore<K, V>(generation), es);
      OrderIsFirstOffers(generation, front);
      assert Sound(NewCore<K, V>(generation));
      RunSound(NewCore<K, V>(generation), front);
      hide Run;
      StepOrder(Run(NewCore<K, V>(generation), front), es[|es| - 1]);
    }
  }

  lemma {:induction false} StepOrder<K, V>(c: Core<K, V>, e: Event<K, V>)
    requires Sound(c)
    ensures Step(c, e).order == if e.EUpsert? && e.key !in c.order then c.order + [e.key] else c.order
  {
    hide UpsertEntry, SoundEntry;
    assert e.EUpsert? ==> (e.key in c.order <==> e.key in Elements(c.order));
  }
}
