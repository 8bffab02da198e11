/** The anti-entropy plane of `src/lazily/crdt_plane.py` as values: greatest-stamp winners,
    the per-peer frontier, and the frames exchanged. */
module CrdtPlane {
  import opened Wrappers
  import opened Bytes
  import opened Sequences

  datatype Stamp = Stamp(wallTime: int, logical: int, peer: int)

  const NO_STAMP := Stamp(0, 0, 0)

  predicate StampLess(a: Stamp, b: Stamp) {
    || a.wallTime < b.wallTime
    || (a.wallTime == b.wallTime && (a.logical < b.logical || (a.logical == b.logical && a.peer < b.peer)))
  }

  datatype State = Inline(data: Bytes) | Shared

  datatype CrdtOp = CrdtOp(node: int, key: Option<string>, stamp: Stamp, state: State)

  /** `PlaneEntry`: the converged state of one slot. */
  datatype Entry = Entry(node: int, key: Option<string>, stamp: Stamp, state: Bytes)

  /** What winners are kept for: a node and a key path. */
  type Slot = (int, Option<string>)

  datatype Frame = Frame(frontier: map<int, Stamp>, ops: seq<CrdtOp>)

  /** A runtime without registered families. `seen` is history: the entries ingested. */
  datatype Plane = Plane(entries: seq<Entry>, applied: set<(int, Stamp)>, frontier: map<int, Stamp>, seen: set<Entry>)

  const EMPTY := Plane([], {}, map[], {})

  function SlotOf(e: Entry): Slot {
    (e.node, e.key)
  }

  /** A state that is not inline is kept as no bytes. */
  function EntryOf(op: CrdtOp): Entry {
    Entry(op.node, op.key, op.stamp, if op.state.Inline? then op.state.data else [])
  }

  function OpOf(e: Entry): CrdtOp {
    CrdtOp(e.node, e.key, e.stamp, Inline(e.state))
  }

  predicate OneEach(entries: seq<Entry>) {
    forall i, j :: 0 <= i < j < |entries| ==> SlotOf(entries[i]) != SlotOf(entries[j])
  }

  function Find(entries: seq<Entry>, slot: Slot): (r: Option<nat>)
    ensures r.Some? ==> r.value < |entries| && SlotOf(entries[r.value]) == slot
    ensures r.None? ==> forall i :: 0 <= i < |entries| ==> SlotOf(entries[i]) != slot
    decreases |entries|
  {
    if entries == [] then None
    else if SlotOf(entries[|entries| - 1]) == slot then Some(|entries| - 1)
    else Find(entries[..|entries| - 1], slot)
  }

  /** The greatest stamp wins its slot. */
  function Put(entries: seq<Entry>, e: Entry): seq<Entry> {
    var at := Find(entries, SlotOf(e));
    if at.None? then entries + [e]
    else if StampLess(entries[at.value].stamp, e.stamp) then entries[at.value := e]
    else entries
  }

  function Raise(f: map<int, Stamp>, peer: int, s: Stamp): map<int, Stamp> {
    if peer !in f || StampLess(f[peer], s) then f[peer := s] else f
  }

  function Ingest(p: Plane, e: Entry): Plane {
    Plane(Put(p.entries, e), p.applied + {(e.node, e.stamp)}, Raise(p.frontier, e.stamp.peer, e.stamp), p.seen + {e})
  }

  /** `apply`. */
  function Apply(p: Plane, op: CrdtOp): Plane {
    if (op.node, op.stamp) in p.applied then p else Ingest(p, EntryOf(op))
  }

  function ApplyAll(p: Plane, ops: seq<CrdtOp>): Plane
    decreases |ops|
  {
    if ops == [] then p else Apply(ApplyAll(p, ops[..|ops| - 1]), ops[|ops| - 1])
  }

  /** Per peer the later of the two. */
  function MergedFrontier(f: map<int, Stamp>, g: map<int, Stamp>): map<int, Stamp> {
    map p | p in f.Keys + g.Keys :: if p !in g || (p in f && !StampLess(f[p], g[p])) then f[p] else g[p]
  }

  /** `apply_frame`. */
  function ApplyFrame(p: Plane, frame: Frame): Plane {
    var r := ApplyAll(p, frame.ops);
    r.(frontier := MergedFrontier(r.frontier, frame.frontier))
  }

  /** The entry is newer than anything a replica with this frontier observed of its peer. */
  predicate Newer(e: Entry, their: map<int, Stamp>) {
    StampLess(if e.stamp.peer in their then their[e.stamp.peer] else NO_STAMP, e.stamp)
  }

  function Lacked(entries: seq<Entry>, their: map<int, Stamp>): seq<CrdtOp>
    decreases |entries|
  {
    if entries == [] then []
    else
      var e := entries[|entries| - 1];
      Lacked(entries[..|entries| - 1], their) + if Newer(e, their) then [OpOf(e)] else []
  }

  /** `delta_sync`. */
  function Delta(p: Plane, their: map<int, Stamp>): Frame {
    Frame(p.frontier, Lacked(p.entries, their))
  }

  /** `to_sync`. */
  function Full(p: Plane): Frame {
    Frame(p.frontier, seq(|p.entries|, i requires 0 <= i < |p.entries| => OpOf(p.entries[i])))
  }

  // ----- winners -----

  lemma {:induction false} StampTotal(a: Stamp, b: Stamp)
    ensures StampLess(a, b) || a == b || StampLess(b, a)
    ensures !(StampLess(a, b) && StampLess(b, a))
  {
  }

  lemma {:induction false} StampAtLeast(a: Stamp, b: Stamp, c: Stamp)
    requires !StampLess(b, a) && !StampLess(c, b)
    ensures !StampLess(c, a)
  {
  }

  /** The slot has a winner stamped `s` or later. */
  ghost predicate Reaches(entries: seq<Entry>, slot: Slot, s: Stamp) {
    exists i :: 0 <= i < |entries| && SlotOf(entries[i]) == slot && !StampLess(entries[i].stamp, s)
  }

  lemma {:induction false} PutReachesIff(entries: seq<Entry>, e: Entry, slot: Slot, s: Stamp)
    ensures Reaches(Put(entries, e), slot, s)
            <==> Reaches(entries, slot, s) || (SlotOf(e) == slot && !StampLess(e.stamp, s))
  {
    var at := Find(entries, SlotOf(e));
    var r := Put(entries, e);
    if Reaches(entries, slot, s) {
      var i :| 0 <= i < |entries| && SlotOf(entries[i]) == slot && !StampLess(entries[i].stamp, s);
      assert SlotOf(r[i]) == slot && !StampLess(r[i].stamp, s);
    }
    if SlotOf(e) == slot && !StampLess(e.stamp, s) {
      var i := if at.None? then |entries| else at.value;
      assert SlotOf(r[i]) == slot && !StampLess(r[i].stamp, s);
    }
    if Reaches(r, slot, s) {
      var i :| 0 <= i < |r| && SlotOf(r[i]) == slot && !StampLess(r[i].stamp, s);
      if r[i] != e { assert i < |entries| && r[i] == entries[i]; }
    }
  }

  lemma {:induction false} PutMembers(entries: seq<Entry>, e: Entry)
    requires OneEach(entries)
    ensures OneEach(Put(entries, e)) && forall x :: x in Put(entries, e) ==> x in entries || x == e
  {
  }

  /** Winners are the ingested entries of greatest stamp, one per slot, and the frontier has
      reached every ingested stamp. */
  ghost predicate Maximal(p: Plane) {
    && OneEach(p.entries)
    && (forall e :: e in p.entries ==> e in p.seen)
    && (forall e :: e in p.seen ==> Reaches(p.entries, SlotOf(e), e.stamp) && (e.node, e.stamp) in p.applied)
    && (forall n, s :: (n, s) in p.applied ==> exists e :: e in p.seen && e.node == n && e.stamp == s)
    && (forall e :: e in p.seen ==> Passed(p.frontier, e.stamp))
  }

  lemma {:induction false} SeenAt(p: Plane, x: Entry)
    requires Maximal(p) && x in p.seen
    ensures OneEach(p.entries) && Reaches(p.entries, SlotOf(x), x.stamp)
    ensures (x.node, x.stamp) in p.applied && Passed(p.frontier, x.stamp)
  {
    hide Reaches, OneEach, Passed;
  }

  predicate Passed(f: map<int, Stamp>, s: Stamp) {
    s.peer in f && !StampLess(f[s.peer], s)
  }

  /** A node and a stamp name one entry. */
  ghost predicate Identified(entries: set<Entry>) {
    forall a, b :: a in entries && b in entries && a.node == b.node && a.stamp == b.stamp ==> a == b
  }

  lemma {:induction false} IngestMaximal(p: Plane, e: Entry)
    requires Maximal(p)
    ensures Maximal(Ingest(p, e))
  {
    hide Put, Reaches;
    PutMembers(p.entries, e);
    var q := Ingest(p, e);
    forall x | x in q.seen ensures Reaches(q.entries, SlotOf(x), x.stamp) {
      PutReachesIff(p.entries, e, SlotOf(x), x.stamp);
    }
    forall n, s | (n, s) in q.applied ensures exists x :: x in q.seen && x.node == n && x.stamp == s {
      if (n, s) in p.applied {
        var x :| x in p.seen && x.node == n && x.stamp == s;
        assert x in q.seen;
      } else {
        assert e in q.seen && e.node == n && e.stamp == s;
      }
    }
  }

  function Entries(ops: seq<CrdtOp>): set<Entry> {
    set i | 0 <= i < |ops| :: EntryOf(ops[i])
  }

  lemma {:induction false} EntriesSnoc(ops: seq<CrdtOp>, op: CrdtOp)
    ensures Entries(ops + [op]) == Entries(ops) + {EntryOf(op)}
  {
    forall e ensures e in Entries(ops + [op]) <==> e in Entries(ops) + {EntryOf(op)} {
      if e in Entries(ops) {
        var i :| 0 <= i < |ops| && e == EntryOf(ops[i]);
        assert (ops + [op])[i] == ops[i];
      }
      assert (ops + [op])[|ops|] == op;
    }
  }

  /** Whatever the order and repetition, the ops ingested are the ops offered. */
  lemma {:induction false} ApplyAllMaximal(p: Plane, ops: seq<CrdtOp>)
    requires Maximal(p) && Identified(p.seen + Entries(ops))
    ensures Maximal(ApplyAll(p, ops)) && ApplyAll(p, ops).seen == p.seen + Entries(ops)
    decreases |ops|
  {
    hide Maximal;
    if ops != [] {
      var front, op := ops[..|ops| - 1], ops[|ops| - 1];
      EntriesSnoc(front, op);
      assert ops == front + [op];
      ApplyAllMaximal(p, front);
      var q := ApplyAll(p, front);
      AppliedIff(q, EntryOf(op));
      IngestMaximal(q, EntryOf(op));
    }
  }

  lemma {:induction false} AppliedIff(p: Plane, e: Entry)
    requires Maximal(p) && Identified(p.seen + {e})
    ensures (e.node, e.stamp) in p.applied <==> e in p.seen
  {
    hide Reaches;
    if (e.node, e.stamp) in p.applied {
      var x :| x in p.seen && x.node == e.node && x.stamp == e.stamp;
      assert x in p.seen + {e} && e in p.seen + {e};
    }
  }

  /** The winner map: an entry wins exactly when it is an ingested entry of its slot and no
      ingested entry of that slot has a later stamp. */
  lemma {:induction false} WinsIff(p: Plane, e: Entry)
    requires Maximal(p) && Identified(p.seen)
    ensures e in p.entries
            <==> e in p.seen && forall x :: x in p.seen && SlotOf(x) == SlotOf(e) ==> !StampLess(e.stamp, x.stamp)
  {
    assert e in p.entries ==> e in p.seen;
    hide Maximal, Identified, StampLess;
    if e in p.entries {
      forall x | x in p.seen && SlotOf(x) == SlotOf(e) ensures !StampLess(e.stamp, x.stamp) {
        WinnerIsGreatest(p, e, x);
      }
    }
    if e in p.seen && forall x :: x in p.seen && SlotOf(x) == SlotOf(e) ==> !StampLess(e.stamp, x.stamp) {
      GreatestWins(p, e);
    }
  }

  lemma {:induction false} WinnerIsGreatest(p: Plane, e: Entry, x: Entry)
    requires Maximal(p) && e in p.entries && x in p.seen && SlotOf(x) == SlotOf(e)
    ensures !StampLess(e.stamp, x.stamp)
  {
    hide Maximal, StampLess;
    SeenAt(p, x);
    var i :| 0 <= i < |p.entries| && p.entries[i] == e;
    var j :| 0 <= j < |p.entries| && SlotOf(p.entries[j]) == SlotOf(x) && !StampLess(p.entries[j].stamp, x.stamp);
    assert i == j;
  }

  lemma {:induction false} GreatestWins(p: Plane, e: Entry)
    requires Maximal(p) && Identified(p.seen) && e in p.seen
    requires forall x :: x in p.seen && SlotOf(x) == SlotOf(e) ==> !StampLess(e.stamp, x.stamp)
    ensures e in p.entries
  {
    assert forall w :: w in p.entries ==> w in p.seen by { hide Reaches; }
    hide Maximal;
    SeenAt(p, e);
    var j :| 0 <= j < |p.entries| && SlotOf(p.entries[j]) == SlotOf(e) && !StampLess(p.entries[j].stamp, e.stamp);
    var w := p.entries[j];
    assert w in p.seen;
    StampTotal(w.stamp, e.stamp);
    assert w == e;
  }

  /** Two writes to one slot, in either order: the later wall time wins, then the greater
      logical count, then the greater peer. */
  lemma {:induction false} LastWriterWins(a: CrdtOp, b: CrdtOp)
    requires SlotOf(EntryOf(a)) == SlotOf(EntryOf(b))
    requires a.stamp.wallTime <= b.stamp.wallTime
    requires a.stamp.wallTime == b.stamp.wallTime ==> a.stamp.logical <= b.stamp.logical
    requires a.stamp.wallTime == b.stamp.wallTime && a.stamp.logical == b.stamp.logical ==> a.stamp.peer < b.stamp.peer
    ensures Apply(Apply(EMPTY, a), b).entries == Apply(Apply(EMPTY, b), a).entries == [EntryOf(b)]
  {
    assert [EntryOf(a)][0 := EntryOf(b)] == [EntryOf(b)];
    assert Find([], SlotOf(EntryOf(a))) == None;
  }

  /** Convergence: the same ops in any order, batching and repetition give the same winners. */
  lemma {:induction false} SameOpsSameWinners(xs: seq<CrdtOp>, ys: seq<CrdtOp>)
    requires Entries(xs) == Entries(ys) && Identified(Entries(xs))
    ensures Elements(ApplyAll(EMPTY, xs).entries) == Elements(ApplyAll(EMPTY, ys).entries)
    ensures ApplyAll(EMPTY, xs).applied == ApplyAll(EMPTY, ys).applied
  {
    assert {} + Entries(xs) == Entries(xs) && {} + Entries(ys) == Entries(ys);
    ApplyAllMaximal(EMPTY, xs);
    ApplyAllMaximal(EMPTY, ys);
    var p, q := ApplyAll(EMPTY, xs), ApplyAll(EMPTY, ys);
    SameSeenSameWinners(p, q);
  }

  lemma {:induction false} SameSeenSameWinners(p: Plane, q: Plane)
    requires Maximal(p) && Maximal(q) && p.seen == q.seen && Identified(p.seen)
    ensures Elements(p.entries) == Elements(q.entries) && p.applied == q.applied
  {
    forall e ensures e in p.entries <==> e in q.entries {
      WinsIff(p, e);
      WinsIff(q, e);
    }
    hide Reaches, OneEach;
    AppliedFromSeen(p, q);
    AppliedFromSeen(q, p);
  }

  lemma {:induction false} AppliedFromSeen(p: Plane, q: Plane)
    requires Maximal(p) && Maximal(q) && p.seen == q.seen
    ensures p.applied <= q.applied
  {
    hide Reaches, OneEach;
    forall x | x in p.applied ensures x in q.applied {
      var n, s := x.0, x.1;
      assert (n, s) in p.applied;
      var e :| e in p.seen && e.node == n && e.stamp == s;
      assert (e.node, e.stamp) in q.applied;
    }
  }

  /** Two ops that share a node and a stamp under different keys are taken for one: the
      second is never stored. */
  lemma {:induction false} SharedStampLosesKey(a: CrdtOp, b: CrdtOp)
    requires a.node == b.node && a.stamp == b.stamp && a.key != b.key
    ensures Apply(Apply(EMPTY, a), b) == Apply(EMPTY, a)
    ensures !Reaches(Apply(Apply(EMPTY, a), b).entries, (b.node, b.key), b.stamp)
  {
  }

  /** After an op its slot has a winner as late as the op, unless its node and stamp were known
      and the slot had none. */
  lemma {:induction false} StoredIff(p: Plane, op: CrdtOp)
    requires Maximal(p)
    ensures Reaches(Apply(p, op).entries, SlotOf(EntryOf(op)), op.stamp)
            <==> (op.node, op.stamp) !in p.applied || Reaches(p.entries, SlotOf(EntryOf(op)), op.stamp)
  {
    hide Reaches, Maximal;
    StampTotal(op.stamp, op.stamp);
    PutReachesIff(p.entries, EntryOf(op), SlotOf(EntryOf(op)), op.stamp);
  }

  /** Of entries that share a node and a stamp only the first is ingested. */
  lemma {:induction false} SeenIdentified(p: Plane, ops: seq<CrdtOp>)
    requires Maximal(p) && Identified(p.seen)
    ensures Maximal(ApplyAll(p, ops)) && Identified(ApplyAll(p, ops).seen)
    ensures ApplyAll(p, ops).seen <= p.seen + Entries(ops)
    decreases |ops|
  {
    hide Maximal, Identified, Apply;
    if ops != [] {
      var front, op := ops[..|ops| - 1], ops[|ops| - 1];
      EntriesSnoc(front, op);
      assert ops == front + [op];
      SeenIdentified(p, front);
      SeenStep(ApplyAll(p, front), op);
    }
  }

  lemma {:induction false} SeenStep(p: Plane, op: CrdtOp)
    requires Maximal(p) && Identified(p.seen)
    ensures Maximal(Apply(p, op)) && Identified(Apply(p, op).seen) && Apply(p, op).seen <= p.seen + {EntryOf(op)}
  {
    hide Maximal;
    var e := EntryOf(op);
    IngestMaximal(p, e);
    forall x | x in p.seen ensures (x.node, x.stamp) in p.applied {
      SeenAt(p, x);
    }
  }

  /** A batch is ingested whole exactly when a node and a stamp name one of its entries. */
  lemma {:induction false} IngestsAllIff(ops: seq<CrdtOp>)
    ensures ApplyAll(EMPTY, ops).seen == Entries(ops) <==> Identified(Entries(ops))
  {
    SeenIdentified(EMPTY, ops);
    if Identified(Entries(ops)) {
      assert {} + Entries(ops) == Entries(ops);
      ApplyAllMaximal(EMPTY, ops);
    }
  }

  lemma {:induction false} AppliedStays(p: Plane, ops: seq<CrdtOp>)
    ensures p.applied <= ApplyAll(p, ops).applied
    ensures forall i :: 0 <= i < |ops| ==> (ops[i].node, ops[i].stamp) in ApplyAll(p, ops).applied
    decreases |ops|
  {
    if ops != [] {
      AppliedStays(p, ops[..|ops| - 1]);
    }
  }

  lemma {:induction false} KnownOpsIdle(p: Plane, ops: seq<CrdtOp>)
    requires forall i :: 0 <= i < |ops| ==> (ops[i].node, ops[i].stamp) in p.applied
    ensures ApplyAll(p, ops) == p
    decreases |ops|
  {
    if ops != [] {
      KnownOpsIdle(p, ops[..|ops| - 1]);
    }
  }

  /** A frame delivered again changes nothing. */
  lemma {:induction false} RedeliveryIdle(p: Plane, frame: Frame)
    ensures ApplyFrame(ApplyFrame(p, frame), frame) == ApplyFrame(p, frame)
  {
    var r := ApplyFrame(p, frame);
    AppliedStays(p, frame.ops);
    KnownOpsIdle(r, frame.ops);
    assert MergedFrontier(r.frontier, frame.frontier) == r.frontier;
  }

  // ----- the watermark -----

  /** The least stamp of the frontier, `stability_watermark`. */
  predicate IsWatermark(f: map<int, Stamp>, w: Stamp) {
    (exists p :: p in f && f[p] == w) && forall p :: p in f ==> !StampLess(f[p], w)
  }

  lemma {:induction false} WatermarkUnique(f: map<int, Stamp>, v: Stamp, w: Stamp)
    requires IsWatermark(f, v) && IsWatermark(f, w)
    ensures v == w
  {
    StampTotal(v, w);
  }

  // ----- frames -----

  /** An op of the batch gives the slot a stamp of `s` or later. */
  ghost predicate Offers(ops: seq<CrdtOp>, slot: Slot, s: Stamp) {
    exists i :: 0 <= i < |ops| && SlotOf(EntryOf(ops[i])) == slot && !StampLess(ops[i].stamp, s)
  }

  /** After a batch a slot reaches a stamp exactly when it did before or the batch offers it. */
  lemma {:induction false} ApplyAllReachesIff(p: Plane, ops: seq<CrdtOp>, slot: Slot, s: Stamp)
    requires Maximal(p) && Identified(p.seen + Entries(ops))
    ensures Reaches(ApplyAll(p, ops).entries, slot, s) <==> Reaches(p.entries, slot, s) || Offers(ops, slot, s)
    decreases |ops|
  {
    assert ops == [] ==> !Offers(ops, slot, s);
    hide Reaches, Maximal, Offers, Apply;
    if ops != [] {
      var front, op := ops[..|ops| - 1], ops[|ops| - 1];
      EntriesSnoc(front, op);
      assert ops == front + [op];
      assert p.seen + Entries(front) + {EntryOf(op)} == p.seen + Entries(ops);
      ApplyAllMaximal(p, front);
      ApplyAllReachesIff(p, front, slot, s);
      ApplyReachesIff(ApplyAll(p, front), op, slot, s);
      OffersSnoc(front, op, slot, s);
    }
  }

  lemma {:induction false} ApplyReachesIff(p: Plane, op: CrdtOp, slot: Slot, s: Stamp)
    requires Maximal(p) && Identified(p.seen + {EntryOf(op)})
    ensures Reaches(Apply(p, op).entries, slot, s)
            <==> Reaches(p.entries, slot, s) || (SlotOf(EntryOf(op)) == slot && !StampLess(op.stamp, s))
  {
    var e := EntryOf(op);
    AppliedIff(p, e);
    hide Reaches, Maximal, Identified;
    if e in p.seen {
      SeenAt(p, e);
      if SlotOf(e) == slot && !StampLess(op.stamp, s) { ReachesLower(p.entries, slot, op.stamp, s); }
    } else {
      PutReachesIff(p.entries, e, slot, s);
    }
  }

  lemma {:induction false} ReachesLower(entries: seq<Entry>, slot: Slot, t: Stamp, s: Stamp)
    requires Reaches(entries, slot, t) && !StampLess(t, s)
    ensures Reaches(entries, slot, s)
  {
    var i :| 0 <= i < |entries| && SlotOf(entries[i]) == slot && !StampLess(entries[i].stamp, t);
    StampAtLeast(s, t, entries[i].stamp);
  }

  lemma {:induction false} OffersSnoc(ops: seq<CrdtOp>, op: CrdtOp, slot: Slot, s: Stamp)
    ensures Offers(ops + [op], slot, s)
            <==> Offers(ops, slot, s) || (SlotOf(EntryOf(op)) == slot && !StampLess(op.stamp, s))
  {
    var r := ops + [op];
    if Offers(ops, slot, s) {
      var i :| 0 <= i < |ops| && SlotOf(EntryOf(ops[i])) == slot && !StampLess(ops[i].stamp, s);
      assert r[i] == ops[i];
    }
    assert r[|ops|] == op;
  }

  /** To a peer that never heard of the producer a delta sends what is stamped later than all
      zeros, and never anything else. */
  lemma {:induction false} UnknownProducerIff(p: Plane, their: map<int, Stamp>, e: Entry)
    requires e.stamp.peer !in their
    ensures OpOf(e) in Delta(p, their).ops
            <==> (e in p.entries
                  && (e.stamp.wallTime > 0
                      || (e.stamp.wallTime == 0
                          && (e.stamp.logical > 0 || (e.stamp.logical == 0 && e.stamp.peer > 0)))))
  {
    LackedIff(p.entries, their, e);
  }

  /** An op of a delta is of a winner newer than the frontier. */
  lemma {:induction false} LackedNewer(entries: seq<Entry>, their: map<int, Stamp>, e: Entry)
    requires e in Entries(Lacked(entries, their))
    ensures e in entries && Newer(e, their)
    decreases |entries|
  {
    var front, last := entries[..|entries| - 1], entries[|entries| - 1];
    EntriesSnoc(Lacked(front, their), OpOf(last));
    assert Lacked(front, their) + [] == Lacked(front, their);
    if e in Entries(Lacked(front, their)) {
      LackedNewer(front, their, e);
    } else {
      assert e == EntryOf(OpOf(last)) == last;
    }
  }

  /** A delta carries exactly the winners newer than the frontier it answers. */
  lemma {:induction false} LackedIff(entries: seq<Entry>, their: map<int, Stamp>, e: Entry)
    ensures OpOf(e) in Lacked(entries, their) <==> e in entries && Newer(e, their)
    ensures Entries(Lacked(entries, their)) <= Elements(entries)
    decreases |entries|
  {
    if entries != [] {
      var front, last := entries[..|entries| - 1], entries[|entries| - 1];
      LackedIff(front, their, e);
      EntriesSnoc(Lacked(front, their), OpOf(last));
      assert entries == front + [last];
      assert Lacked(front, their) + [] == Lacked(front, their);
      assert EntryOf(OpOf(last)) == last;
      assert OpOf(e) == OpOf(last) ==> e == last by { assert EntryOf(OpOf(e)) == e; }
    }
  }
}
