/** Many replicas of the plane, exchanging frontiers and frames that may be delayed,
    reordered and repeated. */
module CrdtProtocol {
  import opened Sequences
  import opened CrdtPlane

  /** A frontier a replica once published. */
  datatype Request = Request(from: int, frontier: map<int, Stamp>)

  /** A frame on its way; `sender` is the publisher's plane when it was made. */
  datatype Message = Message(to: int, frame: Frame, sender: Plane)

  /** Requests and messages are never used up: a delivery may be late or repeated. */
  datatype System = System(planes: map<int, Plane>, issued: set<Entry>, requests: set<Request>, messages: set<Message>)

  datatype Event =
    | Write(at: int, op: CrdtOp)
    | Ask(at: int)
    | Answer(at: int, request: Request)
    | Publish(at: int, to: int)
    | Deliver(message: Message)

  /** A local write is stamped by its own replica, later than all it stamped before. */
  ghost predicate Enabled(s: System, e: Event) {
    match e
    case Write(at, op) =>
      at in s.planes && op.stamp.peer == at && StampLess(NO_STAMP, op.stamp)
      && forall x :: x in s.issued && x.stamp.peer == at ==> StampLess(x.stamp, op.stamp)
    case Ask(at) => at in s.planes
    case Answer(at, request) => at in s.planes && request in s.requests
    case Publish(at, to) => at in s.planes && to in s.planes
    case Deliver(message) => message in s.messages && message.to in s.planes
  }

  function Do(s: System, e: Event): System
    requires e.Write? || e.Ask? || e.Answer? || e.Publish? ==> e.at in s.planes
    requires e.Deliver? ==> e.message.to in s.planes
  {
    match e
    case Write(at, op) => s.(planes := s.planes[at := Apply(s.planes[at], op)], issued := s.issued + {EntryOf(op)})
    case Ask(at) => s.(requests := s.requests + {Request(at, s.planes[at].frontier)})
    case Answer(at, request) =>
      s.(messages := s.messages + {Message(request.from, Delta(s.planes[at], request.frontier), s.planes[at])})
    case Publish(at, to) => s.(messages := s.messages + {Message(to, Full(s.planes[at]), s.planes[at])})
    case Deliver(message) => s.(planes := s.planes[message.to := ApplyFrame(s.planes[message.to], message.frame)])
  }

  function Start(peers: set<int>): System {
    System(map p | p in peers :: EMPTY, {}, {}, {})
  }

  ghost predicate Runs(s: System, es: seq<Event>)
    decreases |es|
  {
    es == [] || (Enabled(s, es[0]) && Runs(Do(s, es[0]), es[1..]))
  }

  ghost function After(s: System, es: seq<Event>): System
    requires Runs(s, es)
    decreases |es|
  {
    if es == [] then s else After(Do(s, es[0]), es[1..])
  }

  // ----- honesty -----

  /** Whatever was issued within the frontier has a winner at least as late. */
  ghost predicate Honest(entries: seq<Entry>, f: map<int, Stamp>, issued: set<Entry>) {
    forall x :: x in issued && Passed(f, x.stamp) ==> Reaches(entries, SlotOf(x), x.stamp)
  }

  /** Every mark of the frontier is a stamp its peer issued. */
  ghost predicate Bounded(f: map<int, Stamp>, issued: set<Entry>) {
    forall p :: p in f ==> f[p].peer == p && exists x :: x in issued && x.stamp == f[p]
  }

  /** The frame supplies what its frontier claims and the receiver lacks. */
  ghost predicate Closes(entries: seq<Entry>, frame: Frame, issued: set<Entry>) {
    forall x :: x in issued && Passed(frame.frontier, x.stamp) ==>
      Reaches(entries, SlotOf(x), x.stamp) || Offers(frame.ops, SlotOf(x), x.stamp)
  }

  /** Receiver and frame together reach every winner of the sender. */
  ghost predicate Covers(entries: seq<Entry>, ops: seq<CrdtOp>, sender: seq<Entry>) {
    forall x :: x in sender ==> Reaches(entries, SlotOf(x), x.stamp) || Offers(ops, SlotOf(x), x.stamp)
  }

  ghost predicate SoundPlane(p: Plane, issued: set<Entry>) {
    Maximal(p) && p.seen <= issued && Bounded(p.frontier, issued) && Honest(p.entries, p.frontier, issued)
  }

  /** A replica has seen all its own writes. */
  ghost predicate OwnSeen(p: Plane, at: int, issued: set<Entry>) {
    forall x :: x in issued && x.stamp.peer == at ==> x in p.seen
  }

  /** A frame's ops lie within its frontier. */
  ghost predicate Within(frame: Frame) {
    forall i :: 0 <= i < |frame.ops| ==> Passed(frame.frontier, frame.ops[i].stamp)
  }

  ghost predicate SoundRequest(r: Request, planes: map<int, Plane>, issued: set<Entry>) {
    r.from in planes && Bounded(r.frontier, issued) && Honest(planes[r.from].entries, r.frontier, issued)
  }

  ghost predicate SoundMessage(m: Message, planes: map<int, Plane>, issued: set<Entry>) {
    && m.to in planes && Bounded(m.frame.frontier, issued) && Entries(m.frame.ops) <= issued && Within(m.frame)
    && Closes(planes[m.to].entries, m.frame, issued)
    && Covers(planes[m.to].entries, m.frame.ops, m.sender.entries)
  }

  ghost predicate Issuable(issued: set<Entry>) {
    Identified(issued) && forall x :: x in issued ==> StampLess(NO_STAMP, x.stamp)
  }

  ghost predicate Sound(s: System) {
    && Issuable(s.issued)
    && (forall p :: p in s.planes ==> SoundPlane(s.planes[p], s.issued) && OwnSeen(s.planes[p], p, s.issued))
    && (forall r :: r in s.requests ==> SoundRequest(r, s.planes, s.issued))
    && (forall m :: m in s.messages ==> SoundMessage(m, s.planes, s.issued))
  }

  // ----- replies -----

  lemma {:induction false} OpOffers(ops: seq<CrdtOp>, e: Entry)
    requires OpOf(e) in ops
    ensures Offers(ops, SlotOf(e), e.stamp)
  {
    var i :| 0 <= i < |ops| && ops[i] == OpOf(e);
    assert SlotOf(EntryOf(ops[i])) == SlotOf(e) && !StampLess(ops[i].stamp, e.stamp);
  }

  lemma {:induction false} OffersLower(ops: seq<CrdtOp>, slot: Slot, t: Stamp, s: Stamp)
    requires Offers(ops, slot, t) && !StampLess(t, s)
    ensures Offers(ops, slot, s)
  {
    var i :| 0 <= i < |ops| && SlotOf(EntryOf(ops[i])) == slot && !StampLess(ops[i].stamp, t);
    StampAtLeast(s, t, ops[i].stamp);
  }

  /** A delta built for a frontier the receiver is honest about covers the sender's winners. */
  lemma {:induction false} DeltaCovers(p: Plane, f: map<int, Stamp>, entries: seq<Entry>, issued: set<Entry>)
    requires Issuable(issued) && SoundPlane(p, issued) && Honest(entries, f, issued)
    ensures Covers(entries, Delta(p, f).ops, p.entries)
  {
    hide Reaches, Offers, Lacked, Bounded;
    forall x | x in p.entries
      ensures Reaches(entries, SlotOf(x), x.stamp) || Offers(Delta(p, f).ops, SlotOf(x), x.stamp)
    {
      assert x in p.seen && x in issued;
      LackedIff(p.entries, f, x);
      if Newer(x, f) {
        OpOffers(Lacked(p.entries, f), x);
      } else {
        assert Passed(f, x.stamp);
      }
    }
  }

  lemma {:induction false} FullCovers(p: Plane, entries: seq<Entry>)
    ensures Covers(entries, Full(p).ops, p.entries)
  {
    hide Reaches, Offers;
    forall x | x in p.entries ensures Offers(Full(p).ops, SlotOf(x), x.stamp) {
      var i :| 0 <= i < |p.entries| && p.entries[i] == x;
      assert Full(p).ops[i] == OpOf(x);
      OpOffers(Full(p).ops, x);
    }
  }

  /** A frame that carries an honest sender's frontier and covers its winners closes the gap. */
  lemma {:induction false} CoveringCloses(p: Plane, frame: Frame, entries: seq<Entry>, issued: set<Entry>)
    requires SoundPlane(p, issued) && frame.frontier == p.frontier && Covers(entries, frame.ops, p.entries)
    ensures Closes(entries, frame, issued)
  {
    forall x | x in issued && Passed(frame.frontier, x.stamp)
      ensures Reaches(entries, SlotOf(x), x.stamp) || Offers(frame.ops, SlotOf(x), x.stamp)
    {
      var i :| 0 <= i < |p.entries| && SlotOf(p.entries[i]) == SlotOf(x) && !StampLess(p.entries[i].stamp, x.stamp);
      var w := p.entries[i];
      assert w in p.entries;
      if Reaches(entries, SlotOf(w), w.stamp) {
        ReachesLower(entries, SlotOf(w), w.stamp, x.stamp);
      } else {
        OffersLower(frame.ops, SlotOf(w), w.stamp, x.stamp);
      }
    }
  }

  lemma {:induction false} FullEntries(p: Plane)
    ensures Entries(Full(p).ops) <= Elements(p.entries)
  {
    forall e | e in Entries(Full(p).ops) ensures e in Elements(p.entries) {
      var i :| 0 <= i < |Full(p).ops| && e == EntryOf(Full(p).ops[i]);
      assert p.entries[i] in p.entries;
    }
  }

  lemma {:induction false} WinnersWithin(p: Plane, frame: Frame)
    requires Maximal(p) && frame.frontier == p.frontier && Entries(frame.ops) <= Elements(p.entries)
    ensures Within(frame)
  {
    hide Reaches, OneEach, Passed;
    forall i | 0 <= i < |frame.ops| ensures Passed(frame.frontier, frame.ops[i].stamp) {
      assert EntryOf(frame.ops[i]) in Entries(frame.ops);
      assert EntryOf(frame.ops[i]) in p.entries;
    }
  }

  /** A frame of an honest sender's winners, covering for the receiver, is sound. */
  lemma {:induction false} ReplySound(p: Plane, to: int, frame: Frame, planes: map<int, Plane>, issued: set<Entry>)
    requires SoundPlane(p, issued) && to in planes
    requires frame.frontier == p.frontier && Entries(frame.ops) <= Elements(p.entries)
    requires Covers(planes[to].entries, frame.ops, p.entries)
    ensures SoundMessage(Message(to, frame, p), planes, issued)
  {
    CoveringCloses(p, frame, planes[to].entries, issued);
    WinnersWithin(p, frame);
    hide Honest, Covers, Closes, Within, Bounded, Reaches, OneEach, Passed;
    forall e | e in Entries(frame.ops) ensures e in issued {
      assert e in p.entries;
    }
  }

  // ----- deliveries -----

  lemma {:induction false} SubIdentified(a: set<Entry>, b: set<Entry>)
    requires Identified(b) && a <= b
    ensures Identified(a)
  {
  }

  lemma {:induction false} RaisePassedIff(f: map<int, Stamp>, t: Stamp, s: Stamp)
    ensures Passed(Raise(f, t.peer, t), s) <==> Passed(f, s) || (t.peer == s.peer && !StampLess(t, s))
  {
  }

  /** Ops raise the frontier to their own stamps and no further. */
  lemma {:induction false} ApplyAllPassed(p: Plane, ops: seq<CrdtOp>, s: Stamp, g: map<int, Stamp>)
    requires forall i :: 0 <= i < |ops| ==> Passed(g, ops[i].stamp)
    requires Passed(ApplyAll(p, ops).frontier, s)
    ensures Passed(p.frontier, s) || Passed(g, s)
    decreases |ops|
  {
    if ops != [] {
      var front, op := ops[..|ops| - 1], ops[|ops| - 1];
      assert forall i :: 0 <= i < |front| ==> front[i] == ops[i];
      RaisePassedIff(ApplyAll(p, front).frontier, op.stamp, s);
      if Passed(ApplyAll(p, front).frontier, s) {
        ApplyAllPassed(p, front, s, g);
      }
    }
  }

  lemma {:induction false} ApplyAllBounded(p: Plane, ops: seq<CrdtOp>, issued: set<Entry>)
    requires Bounded(p.frontier, issued) && Entries(ops) <= issued
    ensures Bounded(ApplyAll(p, ops).frontier, issued)
    decreases |ops|
  {
    if ops != [] {
      var front, op := ops[..|ops| - 1], ops[|ops| - 1];
      assert ops == front + [op];
      EntriesSnoc(front, op);
      ApplyAllBounded(p, front, issued);
      RaisedBounded(ApplyAll(p, front).frontier, EntryOf(op), issued);
    }
  }

  lemma {:induction false} RaisedBounded(f: map<int, Stamp>, e: Entry, issued: set<Entry>)
    requires Bounded(f, issued) && e in issued
    ensures Bounded(Raise(f, e.stamp.peer, e.stamp), issued)
  {
    var r := Raise(f, e.stamp.peer, e.stamp);
    forall p | p in r ensures r[p].peer == p && exists x :: x in issued && x.stamp == r[p] {
      if p == e.stamp.peer && r[p] == e.stamp { assert e in issued; } else { assert p in f; }
    }
  }

  lemma {:induction false} MergedPassedIff(f: map<int, Stamp>, g: map<int, Stamp>, s: Stamp)
    ensures Passed(MergedFrontier(f, g), s) <==> Passed(f, s) || Passed(g, s)
  {
  }

  lemma {:induction false} MergedBounded(f: map<int, Stamp>, g: map<int, Stamp>, issued: set<Entry>)
    requires Bounded(f, issued) && Bounded(g, issued)
    ensures Bounded(MergedFrontier(f, g), issued)
  {
    var r := MergedFrontier(f, g);
    forall p | p in r ensures r[p].peer == p && exists x :: x in issued && x.stamp == r[p] {
      if p in f && r[p] == f[p] {
        var x :| x in issued && x.stamp == f[p];
      } else {
        var x :| x in issued && x.stamp == g[p];
      }
    }
  }

  lemma {:induction false} MergedMaximal(p: Plane, g: map<int, Stamp>)
    requires Maximal(p)
    ensures Maximal(p.(frontier := MergedFrontier(p.frontier, g)))
  {
    hide Reaches, OneEach, MergedFrontier, Passed;
    forall e | e in p.seen ensures Passed(MergedFrontier(p.frontier, g), e.stamp) {
      MergedPassedIff(p.frontier, g, e.stamp);
    }
  }

  /** Applying a frame keeps every slot, and adds what the frame offers. */
  lemma {:induction false} FrameReachesIff(p: Plane, frame: Frame, slot: Slot, st: Stamp)
    requires Maximal(p) && Identified(p.seen + Entries(frame.ops))
    ensures Reaches(ApplyFrame(p, frame).entries, slot, st)
            <==> Reaches(p.entries, slot, st) || Offers(frame.ops, slot, st)
  {
    ApplyAllReachesIff(p, frame.ops, slot, st);
  }

  /** A receiver that applies a sound message is sound again, and dominates the sender. */
  lemma {:induction false} DeliverySound(p: Plane, frame: Frame, issued: set<Entry>, sender: seq<Entry>)
    requires Identified(issued) && SoundPlane(p, issued)
    requires Bounded(frame.frontier, issued) && Entries(frame.ops) <= issued && Within(frame)
    requires Closes(p.entries, frame, issued) && Covers(p.entries, frame.ops, sender)
    ensures SoundPlane(ApplyFrame(p, frame), issued) && p.seen <= ApplyFrame(p, frame).seen
    ensures forall x :: x in sender ==> Reaches(ApplyFrame(p, frame).entries, SlotOf(x), x.stamp)
    ensures Grows(p.entries, ApplyFrame(p, frame).entries)
  {
    hide Reaches, Offers, Passed, Bounded, Maximal, MergedFrontier, Identified;
    var q := ApplyAll(p, frame.ops);
    var r := ApplyFrame(p, frame);
    SubIdentified(p.seen + Entries(frame.ops), issued);
    ApplyAllMaximal(p, frame.ops);
    ApplyAllBounded(p, frame.ops, issued);
    MergedMaximal(q, frame.frontier);
    MergedBounded(q.frontier, frame.frontier, issued);
    forall x | x in issued && Passed(r.frontier, x.stamp) ensures Reaches(r.entries, SlotOf(x), x.stamp) {
      FrameReachesIff(p, frame, SlotOf(x), x.stamp);
      MergedPassedIff(q.frontier, frame.frontier, x.stamp);
      if Passed(q.frontier, x.stamp) {
        ApplyAllPassed(p, frame.ops, x.stamp, frame.frontier);
      }
    }
    forall x | x in sender ensures Reaches(r.entries, SlotOf(x), x.stamp) {
      FrameReachesIff(p, frame, SlotOf(x), x.stamp);
    }
    forall slot, st | Reaches(p.entries, slot, st) ensures Reaches(r.entries, slot, st) {
      FrameReachesIff(p, frame, slot, st);
    }
  }

  /** No slot falls back. */
  ghost predicate Grows(a: seq<Entry>, b: seq<Entry>) {
    forall slot, st :: Reaches(a, slot, st) ==> Reaches(b, slot, st)
  }

  // ----- local writes -----

  /** The op's stamp lies beyond everything its peer issued. */
  ghost predicate Later(e: Entry, issued: set<Entry>) {
    && StampLess(NO_STAMP, e.stamp)
    && forall x :: x in issued && x.stamp.peer == e.stamp.peer ==> StampLess(x.stamp, e.stamp)
  }

  lemma {:induction false} LaterNotPassed(f: map<int, Stamp>, e: Entry, issued: set<Entry>)
    requires Bounded(f, issued) && Later(e, issued)
    ensures !Passed(f, e.stamp) && Bounded(f, issued + {e})
  {
    if e.stamp.peer in f {
      var x :| x in issued && x.stamp == f[e.stamp.peer];
      assert StampLess(x.stamp, e.stamp);
    }
    forall p | p in f ensures f[p].peer == p && exists x :: x in issued + {e} && x.stamp == f[p] {
      var x :| x in issued && x.stamp == f[p];
      assert x in issued + {e};
    }
  }

  lemma {:induction false} LaterIssuable(e: Entry, issued: set<Entry>)
    requires Issuable(issued) && Later(e, issued)
    ensures Issuable(issued + {e})
  {
    forall x | x in issued ensures x.stamp != e.stamp {
      assert x.stamp.peer == e.stamp.peer ==> StampLess(x.stamp, e.stamp);
    }
  }

  /** Honesty and closing survive a write elsewhere and growing winners. */
  lemma {:induction false} HonestGrows(a: seq<Entry>, b: seq<Entry>, f: map<int, Stamp>, e: Entry, issued: set<Entry>)
    requires Honest(a, f, issued) && Grows(a, b) && Bounded(f, issued) && Later(e, issued)
    ensures Honest(b, f, issued) && Honest(b, f, issued + {e})
  {
    hide Reaches, Passed, Bounded, Later;
    LaterNotPassed(f, e, issued);
  }

  lemma {:induction false} ClosesGrows(a: seq<Entry>, b: seq<Entry>, frame: Frame, e: Entry, issued: set<Entry>)
    requires Closes(a, frame, issued) && Grows(a, b) && Bounded(frame.frontier, issued) && Later(e, issued)
    ensures Closes(b, frame, issued) && Closes(b, frame, issued + {e})
  {
    hide Reaches, Offers, Passed, Bounded, Later;
    LaterNotPassed(frame.frontier, e, issued);
  }

  lemma {:induction false} WriteSound(p: Plane, at: int, op: CrdtOp, issued: set<Entry>)
    requires Issuable(issued) && SoundPlane(p, issued) && OwnSeen(p, at, issued)
    requires op.stamp.peer == at && Later(EntryOf(op), issued)
    ensures SoundPlane(Apply(p, op), issued + {EntryOf(op)}) && OwnSeen(Apply(p, op), at, issued + {EntryOf(op)})
    ensures Grows(p.entries, Apply(p, op).entries)
  {
    var e := EntryOf(op);
    LaterIssuable(e, issued);
    SubIdentified(p.seen + {e}, issued + {e});
    AppliedIff(p, e);
    assert e in p.seen ==> StampLess(e.stamp, e.stamp);
    IngestMaximal(p, e);
    LaterNotPassed(p.frontier, e, issued);
    RaisedBounded(p.frontier, e, issued + {e});
    var q := Apply(p, op);
    hide Reaches, Passed, Bounded, Identified, Put, Raise, OneEach;
    forall x | x in issued + {e} && Passed(q.frontier, x.stamp) ensures Reaches(q.entries, SlotOf(x), x.stamp) {
      if x.stamp.peer == at {
        assert x in q.seen;
      } else {
        RaisePassedIff(p.frontier, e.stamp, x.stamp);
        PutReachesIff(p.entries, e, SlotOf(x), x.stamp);
      }
    }
    forall slot, st | Reaches(p.entries, slot, st) ensures Reaches(q.entries, slot, st) {
      PutReachesIff(p.entries, e, slot, st);
    }
  }

  // ----- runs -----

  lemma {:induction false} StepSound(s: System, e: Event)
    requires Sound(s) && Enabled(s, e)
    ensures Sound(Do(s, e))
  {
    match e
    case Write(at, op) => WriteStep(s, at, op);
    case Ask(at) => AskStep(s, at);
    case Answer(at, request) => AnswerStep(s, at, request);
    case Publish(at, to) => PublishStep(s, at, to);
    case Deliver(message) => DeliverStep(s, message);
  }

  lemma {:induction false} WriteStep(s: System, at: int, op: CrdtOp)
    requires Sound(s) && Enabled(s, Write(at, op))
    ensures Sound(Do(s, Write(at, op)))
  {
    hide Honest, Covers, Closes, Bounded, Within, Reaches, Maximal, Identified, Apply;
    var e, p := EntryOf(op), s.planes[at];
    assert SoundPlane(p, s.issued) && OwnSeen(p, at, s.issued);
    assert Later(e, s.issued);
    WriteSound(p, at, op, s.issued);
    LaterIssuable(e, s.issued);
    var s' := Do(s, Write(at, op));
    forall q | q in s'.planes ensures SoundPlane(s'.planes[q], s'.issued) && OwnSeen(s'.planes[q], q, s'.issued) {
      if q != at {
        GrowsSelf(s.planes[q].entries);
        LaterNotPassed(s.planes[q].frontier, e, s.issued);
        HonestGrows(s.planes[q].entries, s.planes[q].entries, s.planes[q].frontier, e, s.issued);
      }
    }
    forall r | r in s'.requests ensures SoundRequest(r, s'.planes, s'.issued) {
      GrowsSelf(s.planes[r.from].entries);
      LaterNotPassed(r.frontier, e, s.issued);
      HonestGrows(s.planes[r.from].entries, s'.planes[r.from].entries, r.frontier, e, s.issued);
    }
    forall m | m in s'.messages ensures SoundMessage(m, s'.planes, s'.issued) {
      GrowsSelf(s.planes[m.to].entries);
      LaterNotPassed(m.frame.frontier, e, s.issued);
      ClosesGrows(s.planes[m.to].entries, s'.planes[m.to].entries, m.frame, e, s.issued);
      CoversGrows(s.planes[m.to].entries, s'.planes[m.to].entries, m.frame.ops, m.sender.entries);
    }
  }

  lemma {:induction false} GrowsSelf(a: seq<Entry>)
    ensures Grows(a, a)
  {
  }

  lemma {:induction false} CoversGrows(a: seq<Entry>, b: seq<Entry>, ops: seq<CrdtOp>, sender: seq<Entry>)
    requires Covers(a, ops, sender) && Grows(a, b)
    ensures Covers(b, ops, sender)
  {
    hide Reaches, Offers;
  }

  lemma {:induction false} AskStep(s: System, at: int)
    requires Sound(s) && at in s.planes
    ensures Sound(Do(s, Ask(at)))
  {
    hide Honest, Bounded, Maximal, Identified, SoundMessage;
    assert SoundPlane(s.planes[at], s.issued);
  }

  /** A delta reply to a sound request is a sound message for the one who asked. */
  lemma {:induction false} AnswerSound(p: Plane, r: Request, planes: map<int, Plane>, issued: set<Entry>)
    requires Issuable(issued) && SoundPlane(p, issued) && SoundRequest(r, planes, issued)
    ensures SoundMessage(Message(r.from, Delta(p, r.frontier), p), planes, issued)
  {
    DeltaCovers(p, r.frontier, planes[r.from].entries, issued);
    hide SoundMessage, SoundPlane, Issuable, Honest, Bounded, Covers, Lacked;
    var frame := Delta(p, r.frontier);
    forall e | e in Entries(frame.ops) ensures e in Elements(p.entries) {
      LackedIff(p.entries, r.frontier, e);
    }
    ReplySound(p, r.from, frame, planes, issued);
  }

  lemma {:induction false} AnswerStep(s: System, at: int, request: Request)
    requires Sound(s) && at in s.planes && request in s.requests
    ensures Sound(Do(s, Answer(at, request)))
  {
    hide SoundMessage, SoundPlane, SoundRequest, Issuable, OwnSeen;
    assert SoundPlane(s.planes[at], s.issued) && SoundRequest(request, s.planes, s.issued);
    AnswerSound(s.planes[at], request, s.planes, s.issued);
  }

  lemma {:induction false} PublishStep(s: System, at: int, to: int)
    requires Sound(s) && at in s.planes && to in s.planes
    ensures Sound(Do(s, Publish(at, to)))
  {
    hide SoundMessage, SoundRequest, Issuable, SoundPlane;
    var p := s.planes[at];
    assert SoundPlane(p, s.issued);
    FullCovers(p, s.planes[to].entries);
    FullEntries(p);
    ReplySound(p, to, Full(p), s.planes, s.issued);
  }

  lemma {:induction false} DeliverStep(s: System, m: Message)
    requires Sound(s) && m in s.messages && m.to in s.planes
    ensures Sound(Do(s, Deliver(m)))
    ensures forall x :: x in m.sender.entries ==> Reaches(Do(s, Deliver(m)).planes[m.to].entries, SlotOf(x), x.stamp)
  {
    hide Honest, Covers, Closes, Bounded, Within, Reaches, Maximal, Identified, ApplyFrame;
    var p := s.planes[m.to];
    assert SoundPlane(p, s.issued) && SoundMessage(m, s.planes, s.issued);
    DeliverySound(p, m.frame, s.issued, m.sender.entries);
    var s' := Do(s, Deliver(m));
    forall r | r in s'.requests ensures SoundRequest(r, s'.planes, s'.issued) {
      if r.from == m.to {
        HonestStays(p.entries, s'.planes[m.to].entries, r.frontier, s.issued);
      }
    }
    forall n | n in s'.messages ensures SoundMessage(n, s'.planes, s'.issued) {
      if n.to == m.to {
        ClosesStays(p.entries, s'.planes[m.to].entries, n.frame, s.issued);
        CoversGrows(p.entries, s'.planes[m.to].entries, n.frame.ops, n.sender.entries);
      }
    }
  }

  lemma {:induction false} HonestStays(a: seq<Entry>, b: seq<Entry>, f: map<int, Stamp>, issued: set<Entry>)
    requires Honest(a, f, issued) && Grows(a, b)
    ensures Honest(b, f, issued)
  {
    hide Reaches;
  }

  lemma {:induction false} ClosesStays(a: seq<Entry>, b: seq<Entry>, frame: Frame, issued: set<Entry>)
    requires Closes(a, frame, issued) && Grows(a, b)
    ensures Closes(b, frame, issued)
  {
    hide Reaches, Offers;
  }

  lemma {:induction false} StartSound(peers: set<int>)
    ensures Sound(Start(peers))
  {
  }

  lemma {:induction false} RunSound(s: System, es: seq<Event>)
    requires Sound(s) && Runs(s, es)
    ensures Sound(After(s, es))
    decreases |es|
  {
    hide Sound, Do;
    if es != [] {
      StepSound(s, es[0]);
      RunSound(Do(s, es[0]), es[1..]);
    }
  }

  /** Honest frontiers: in every reachable state of every system of replicas, whatever lies
      within a replica's frontier has a winner at least as late there, and winners are the
      greatest stamps ingested. */
  lemma {:induction false} EveryReplicaHonest(peers: set<int>, es: seq<Event>, r: int)
    requires Runs(Start(peers), es) && r in After(Start(peers), es).planes
    ensures var s := After(Start(peers), es);
            Honest(s.planes[r].entries, s.planes[r].frontier, s.issued) && Maximal(s.planes[r])
  {
    hide SoundRequest, SoundMessage, Maximal, Bounded, Honest, Issuable;
    StartSound(peers);
    RunSound(Start(peers), es);
    assert SoundPlane(After(Start(peers), es).planes[r], After(Start(peers), es).issued);
  }

  /** Dominance: a reply or publication that arrives, however late and however often, leaves
      its receiver with a winner at least as late as each of the sender's when it was made. */
  lemma {:induction false} DeliveryDominates(peers: set<int>, es: seq<Event>, m: Message, x: Entry)
    requires Runs(Start(peers), es) && Enabled(After(Start(peers), es), Deliver(m)) && x in m.sender.entries
    ensures Reaches(Do(After(Start(peers), es), Deliver(m)).planes[m.to].entries, SlotOf(x), x.stamp)
  {
    hide Reaches, SoundPlane, SoundRequest, SoundMessage;
    StartSound(peers);
    RunSound(Start(peers), es);
    DeliverStep(After(Start(peers), es), m);
  }

  // ----- what breaks honesty -----

  /** One op leaves an honest receiver honest if and only if it reaches, or has by then, whatever
      the op's peer issued up to the op. */
  lemma {:induction false} HonestAfterOpIff(p: Plane, op: CrdtOp, issued: set<Entry>)
    requires Identified(issued) && SoundPlane(p, issued) && EntryOf(op) in issued
    ensures Honest(Apply(p, op).entries, Apply(p, op).frontier, issued)
            <==> forall x :: x in issued && x.stamp.peer == op.stamp.peer && !StampLess(op.stamp, x.stamp) ==>
                   Reaches(p.entries, SlotOf(x), x.stamp) || SlotOf(x) == SlotOf(EntryOf(op))
  {
    hide Reaches, Passed, Bounded, Maximal, Identified, Apply, StampLess;
    var e, q := EntryOf(op), Apply(p, op);
    SubIdentified(p.seen + {e}, issued);
    forall x | x in issued
      ensures Passed(q.frontier, x.stamp)
              <==> Passed(p.frontier, x.stamp) || (x.stamp.peer == op.stamp.peer && !StampLess(op.stamp, x.stamp))
      ensures Reaches(q.entries, SlotOf(x), x.stamp)
              <==> Reaches(p.entries, SlotOf(x), x.stamp) || (SlotOf(x) == SlotOf(e) && !StampLess(op.stamp, x.stamp))
    {
      AppliedOpReaches(p, op, x);
    }
  }

  /** What applying an issued op adds to the frontier and to the winners. */
  lemma {:induction false} AppliedOpReaches(p: Plane, op: CrdtOp, x: Entry)
    requires Maximal(p) && Identified(p.seen + {EntryOf(op)})
    ensures Passed(Apply(p, op).frontier, x.stamp)
            <==> Passed(p.frontier, x.stamp) || (x.stamp.peer == op.stamp.peer && !StampLess(op.stamp, x.stamp))
    ensures Reaches(Apply(p, op).entries, SlotOf(x), x.stamp)
            <==> (Reaches(p.entries, SlotOf(x), x.stamp)
                  || (SlotOf(x) == SlotOf(EntryOf(op)) && !StampLess(op.stamp, x.stamp)))
  {
    var e := EntryOf(op);
    ApplyReachesIff(p, op, SlotOf(x), x.stamp);
    AppliedIff(p, e);
    hide Reaches, Identified, Maximal, Put;
    if e in p.seen {
      SeenAt(p, e);
      if x.stamp.peer == op.stamp.peer && !StampLess(op.stamp, x.stamp) {
        StampAtLeast(x.stamp, op.stamp, p.frontier[op.stamp.peer]);
      }
    } else {
      RaisePassedIff(p.frontier, e.stamp, x.stamp);
    }
  }

  /** A frame leaves an honest receiver honest if and only if receiver and frame together
      reach whatever lies within the frontier the frame claims. */
  lemma {:induction false} HonestAfterIff(p: Plane, frame: Frame, issued: set<Entry>)
    requires Identified(issued) && SoundPlane(p, issued)
    requires Bounded(frame.frontier, issued) && Entries(frame.ops) <= issued && Within(frame)
    ensures Honest(ApplyFrame(p, frame).entries, ApplyFrame(p, frame).frontier, issued)
            <==> Closes(p.entries, frame, issued)
  {
    var r := ApplyFrame(p, frame);
    SubIdentified(p.seen + Entries(frame.ops), issued);
    if Closes(p.entries, frame, issued) {
      assert Covers(p.entries, frame.ops, []);
      DeliverySound(p, frame, issued, []);
    }
    if Honest(r.entries, r.frontier, issued) {
      hide Reaches, Offers, Passed, Bounded, Within, Identified, Maximal, ApplyAll;
      forall x | x in issued && Passed(frame.frontier, x.stamp)
        ensures Reaches(p.entries, SlotOf(x), x.stamp) || Offers(frame.ops, SlotOf(x), x.stamp)
      {
        MergedPassedIff(ApplyAll(p, frame.ops).frontier, frame.frontier, x.stamp);
        assert Passed(r.frontier, x.stamp);
        FrameReachesIff(p, frame, SlotOf(x), x.stamp);
      }
    }
  }

  /** Receiver and delta together reach the sender's winners if and only if the receiver
      reaches those the delta leaves out. */
  lemma {:induction false} DeltaCoversIff(q: Plane, f: map<int, Stamp>, entries: seq<Entry>)
    requires OneEach(q.entries)
    ensures Covers(entries, Delta(q, f).ops, q.entries)
            <==> forall x :: x in q.entries && !Newer(x, f) ==> Reaches(entries, SlotOf(x), x.stamp)
  {
    var ops := Delta(q, f).ops;
    forall x | x in q.entries ensures Offers(ops, SlotOf(x), x.stamp) <==> Newer(x, f) {
      DeltaOffersIff(q.entries, f, x);
    }
    hide Reaches, Offers, Lacked, Newer, OneEach;
  }

  lemma {:induction false} DeltaOffersIff(entries: seq<Entry>, f: map<int, Stamp>, x: Entry)
    requires OneEach(entries) && x in entries
    ensures Offers(Lacked(entries, f), SlotOf(x), x.stamp) <==> Newer(x, f)
  {
    var ops := Lacked(entries, f);
    LackedIff(entries, f, x);
    if Newer(x, f) { OpOffers(ops, x); }
    hide Lacked, Newer;
    if Offers(ops, SlotOf(x), x.stamp) {
      var i :| 0 <= i < |ops| && SlotOf(EntryOf(ops[i])) == SlotOf(x) && !StampLess(ops[i].stamp, x.stamp);
      assert EntryOf(ops[i]) in Entries(ops);
      LackedNewer(entries, f, EntryOf(ops[i]));
      assert EntryOf(ops[i]) == x;
    }
  }

  /** A delta, whoever's frontier it was built for, leaves an honest replica honest if and only
      if the replica reaches every winner of the sender that the frontier withholds. */
  lemma {:induction false} HonestAfterDeltaIff(p: Plane, q: Plane, f: map<int, Stamp>, issued: set<Entry>)
    requires Issuable(issued) && SoundPlane(p, issued) && SoundPlane(q, issued)
    ensures var r := ApplyFrame(p, Delta(q, f));
            Honest(r.entries, r.frontier, issued)
            <==> forall x :: x in q.entries && !Newer(x, f) ==> Reaches(p.entries, SlotOf(x), x.stamp)
  {
    hide Reaches, Newer, Lacked, Bounded, Passed, ApplyAll, MergedFrontier;
    var frame := Delta(q, f);
    forall e | e in Entries(frame.ops) ensures e in Elements(q.entries) && e in issued {
      LackedNewer(q.entries, f, e);
    }
    WinnersWithin(q, frame);
    HonestAfterIff(p, frame, issued);
    DeltaCoversIff(q, f, p.entries);
    if Covers(p.entries, frame.ops, q.entries) {
      CoveringCloses(q, frame, p.entries, issued);
    }
    assert Closes(p.entries, frame, issued) ==> Covers(p.entries, frame.ops, q.entries) by {
      assert forall x :: x in q.entries ==> x in issued && Passed(q.frontier, x.stamp);
    }
  }

  /** A winner at or below the frontier its peer is credited with is in no delta for it. */
  lemma {:induction false} PassedIsWithheld(p: Plane, their: map<int, Stamp>, x: Entry)
    requires Passed(their, x.stamp)
    ensures OpOf(x) !in Delta(p, their).ops
  {
    LackedIff(p.entries, their, x);
  }

  /** A delta built for one replica's frontier and applied by another that lacks its ops
      makes the latter claim a stamp it has no winner for; no later delta mends it. */
  lemma {:induction false} MisdirectedDeltaSkips(e: Entry)
    requires StampLess(NO_STAMP, e.stamp)
    ensures var full := Ingest(EMPTY, e);
            var hurt := ApplyFrame(EMPTY, Delta(full, full.frontier));
            !Honest(hurt.entries, hurt.frontier, {e}) && ApplyFrame(hurt, Delta(full, hurt.frontier)) == hurt
  {
    var full := Ingest(EMPTY, e);
    var f := map[e.stamp.peer := e.stamp];
    assert full.entries == [e] && full.frontier == f;
    assert [e][..0] == [];
    assert Lacked([e], f) == Lacked([e][..0], f) + [] == [];
    var hurt := ApplyFrame(EMPTY, Delta(full, full.frontier));
    assert hurt == EMPTY.(frontier := f);
    assert Passed(hurt.frontier, e.stamp);
    assert Delta(full, hurt.frontier) == Frame(f, []);
    assert MergedFrontier(f, f) == f;
  }

  /** One op handed over by itself has the same effect: an earlier op of its peer in another
      slot is from then on withheld. */
  lemma {:induction false} LoneOpSkips(a: CrdtOp, b: CrdtOp)
    requires a.stamp.peer == b.stamp.peer && StampLess(a.stamp, b.stamp) && (a.node, a.key) != (b.node, b.key)
    ensures var hurt := Apply(EMPTY, b);
            !Honest(hurt.entries, hurt.frontier, {EntryOf(a), EntryOf(b)})
            && OpOf(EntryOf(a)) !in Delta(ApplyAll(EMPTY, [a, b]), hurt.frontier).ops
  {
    var hurt := Apply(EMPTY, b);
    assert Passed(hurt.frontier, a.stamp);
    assert !Reaches(hurt.entries, SlotOf(EntryOf(a)), a.stamp);
    PassedIsWithheld(ApplyAll(EMPTY, [a, b]), hurt.frontier, EntryOf(a));
  }

  // ----- the watermark -----

  /** What the watermark of an honest replica does say: whatever a peer of its frontier issued
      at or below it has a winner as late there. */
  lemma {:induction false} WatermarkReached(peers: set<int>, es: seq<Event>, r: int, w: Stamp, x: Entry)
    requires Runs(Start(peers), es) && r in After(Start(peers), es).planes
    requires var s := After(Start(peers), es);
             IsWatermark(s.planes[r].frontier, w) && x in s.issued && x.stamp.peer in s.planes[r].frontier
             && !StampLess(w, x.stamp)
    ensures Reaches(After(Start(peers), es).planes[r].entries, SlotOf(x), x.stamp)
  {
    hide Reaches, Runs, After, Maximal;
    EveryReplicaHonest(peers, es, r);
    var f := After(Start(peers), es).planes[r].frontier;
    StampAtLeast(x.stamp, w, f[x.stamp.peer]);
  }

  /** Up to any stamp no later than its watermark, a frontier has passed everything issued if and
      only if it knows every peer that issued any of it. A stamp no later than the watermark of
      each replica is thus one that each has passed, as far as each knows the peers. */
  lemma {:induction false} WatermarkPassedIff(f: map<int, Stamp>, w: Stamp, v: Stamp, issued: set<Entry>)
    requires IsWatermark(f, w) && !StampLess(w, v)
    ensures (forall x :: x in issued && !StampLess(v, x.stamp) ==> Passed(f, x.stamp))
            <==> forall x :: x in issued && !StampLess(v, x.stamp) ==> x.stamp.peer in f
  {
    forall x | x in issued && !StampLess(v, x.stamp) && x.stamp.peer in f ensures Passed(f, x.stamp) {
      StampAtLeast(x.stamp, v, w);
      StampAtLeast(x.stamp, w, f[x.stamp.peer]);
    }
  }

  /** One local write and no exchange: the writer's watermark is the write, which no other
      replica has seen. */
  lemma {:induction false} WatermarkBeforeExchange(peers: set<int>, at: int, r: int, op: CrdtOp)
    requires at in peers && r in peers && r != at && op.stamp.peer == at && StampLess(NO_STAMP, op.stamp)
    ensures Runs(Start(peers), [Write(at, op)])
    ensures var s := After(Start(peers), [Write(at, op)]);
            at in s.planes && r in s.planes && IsWatermark(s.planes[at].frontier, op.stamp)
            && !Reaches(s.planes[r].entries, SlotOf(EntryOf(op)), op.stamp)
  {
    var s := Do(Start(peers), Write(at, op));
    assert [Write(at, op)][1..] == [];
    assert Runs(s, []) && After(s, []) == s;
    assert s.planes[at].frontier == map[at := op.stamp];
  }

  lemma {:induction false} OneMoreReplica(s: System, n: int, e: Event)
    requires n !in s.planes && Enabled(s, e)
    ensures var t := s.(planes := s.planes[n := EMPTY]);
            Enabled(t, e) && n !in Do(s, e).planes && Do(t, e) == Do(s, e).(planes := Do(s, e).planes[n := EMPTY])
  {
  }

  /** No watermark tells what other replicas have passed: with one more replica the same run
      leaves everyone with the same plane, and that replica with nothing. */
  lemma {:induction false} WatermarkIsLocal(s: System, n: int, es: seq<Event>)
    requires n !in s.planes && Runs(s, es)
    ensures var t := s.(planes := s.planes[n := EMPTY]);
            Runs(t, es) && After(t, es) == After(s, es).(planes := After(s, es).planes[n := EMPTY])
            && n !in After(s, es).planes
    decreases |es|
  {
    if es != [] {
      OneMoreReplica(s, n, es[0]);
      hide Do, Enabled;
      WatermarkIsLocal(Do(s, es[0]), n, es[1..]);
    }
  }
}
