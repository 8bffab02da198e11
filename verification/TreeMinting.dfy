/** The sort keys that local edits mint: each carries the peer of its op, so keys of different
    peers never tie, and replicas that place nodes at the same slot render alike. */
module TreeMinting {
  import opened Wrappers
  import opened Sequences
  import opened Bytes
  import opened FractionalKeys
  import opened VersionFrontier
  import opened TreeState
  import opened TreeConvergence
  import opened TreeAgreement
  import opened TreeAntiEntropy
  import opened TreePlacement
  import opened TreeDeadSplit
  import opened TreeRuns
  import opened TreeFollowers

  /** The sort key an op gives to a node. */
  function KeyOf(op: Op): Option<SortKey> {
    match op.kind
    case CreateNode(_, _, sort, _) => Some(sort)
    case Reorder(_, newSort) => Some(newSort)
    case SplitLeaf(_, _, splitSort, _, _) => Some(splitSort)
    case _ => None
  }

  /** An op whose key carries the op's own peer. */
  predicate Signed(op: Op) {
    KeyOf(op).Some? ==> KeyOf(op).value.peer == op.id.peer
  }

  ghost predicate AllSigned(ops: seq<Op>) {
    forall op :: op in ops ==> Signed(op)
  }

  /** Whatever a local create, move or split mints carries the peer of the op and of the
      replica. */
  lemma {:induction false} MintedKeyIsOwn(t: Tree, e: Edit)
    requires WellFormed(t) && CommittedBy(t, e).Some?
    ensures var op := CommittedBy(t, e).value;
            op.id.peer == t.peer && Signed(op)
            && (KeyOf(op).Some? <==> e.CreateEdit? || e.MoveEdit? || e.SplitEdit?)
  {
    hide Rooted, KidsIn, Split, Merged;
  }

  /** Keys minted by replicas of different peers are never equal. */
  lemma {:induction false} MintedKeysDiffer(s: Tree, t: Tree, e: Edit, f: Edit)
    requires WellFormed(s) && WellFormed(t) && s.peer != t.peer
    requires CommittedBy(s, e).Some? && CommittedBy(t, f).Some?
    requires KeyOf(CommittedBy(s, e).value).Some? && KeyOf(CommittedBy(t, f).value).Some?
    ensures KeyOf(CommittedBy(s, e).value) != KeyOf(CommittedBy(t, f).value)
  {
    hide CommittedBy;
    MintedKeyIsOwn(s, e);
    MintedKeyIsOwn(t, f);
  }

  /** Exactly which edits are refused: an unknown parent, an unknown node or the root, an offset
      outside the text of a leaf, and leaves that are not live siblings next to each other. */
  lemma {:induction false} EditRefusedIff(t: Tree, e: Edit)
    requires WellFormed(t)
    ensures CommittedBy(t, e).None?
            <==> (match e
                  case CreateEdit(parent, _, _) => parent !in t.nodes
                  case BuryEdit(node) => node !in t.nodes || node == ROOT
                  case MoveEdit(node, _) => node !in t.nodes || node == ROOT
                  case SplitEdit(node, at) =>
                    node !in t.nodes || t.nodes[node].body.Element? || at < 0 || at > |t.nodes[node].body.text|
                  case MergeEdit(left, right) =>
                    !(left in t.nodes && right in t.nodes && t.nodes[left].body.Leaf? && t.nodes[right].body.Leaf?
                      && exists p :: Follows(Children(t, p), left, right)))
  {
    assert forall n :: n in t.nodes && n != ROOT ==> BehindParent(t.nodes, t.order, n);
    hide KidsIn, KeyAfter, CommitLocal;
    if e.MergeEdit? { MergeRefusedIff(t, e.left, e.right); }
    hide Merged, BehindParent;
  }

  lemma {:induction false} MergeRefusedIff(t: Tree, left: OpId, right: OpId)
    requires WellFormed(t)
    ensures Merged(t, left, right).Some?
            <==> (left in t.nodes && right in t.nodes && t.nodes[left].body.Leaf? && t.nodes[right].body.Leaf?
                  && exists p :: Follows(Children(t, p), left, right))
  {
    hide Rooted, KidsIn, CommitLocal, LiveKids;
    if Merged(t, left, right).Some? {
      var p := t.nodes[left].parent.value;
      KidsInAreKids(t.nodes, t.order, p);
      assert Follows(Children(t, p), left, right);
    }
    if p :| Follows(Children(t, p), left, right) {
      KidsInAreKids(t.nodes, t.order, p);
      KidOf(t, p, left);
      FollowsAt(Children(t, p), left, right);
    }
  }

  lemma {:induction false} KidOf(t: Tree, p: OpId, n: OpId)
    requires WellFormed(t) && n in Children(t, p)
    ensures n in t.nodes && t.nodes[n].parent == Some(p)
  {
    KidsInAreKids(t.nodes, t.order, p);
    hide Rooted, KidsIn;
  }

  lemma {:induction false} FollowsAt(kids: seq<OpId>, x: OpId, y: OpId)
    requires Distinct(kids) && Follows(kids, x, y)
    ensures x in kids && IndexOf(kids, x) + 1 < |kids| && kids[IndexOf(kids, x) + 1] == y
  {
  }

  // ----- ownership of keys over whole histories -----

  /** The key of every node carries the peer whose op set it. */
  ghost predicate Owned(nodes: map<OpId, Node>) {
    forall n :: n in nodes ==> nodes[n].sort.peer == nodes[n].stamp.peer
  }

  lemma {:induction false} AppliedOwned(t: Tree, op: Op)
    requires Owned(t.nodes) && Signed(op)
    ensures Owned(Commit(t, op).nodes)
  {
    hide ObservedIn;
  }

  lemma {:induction false} SweepOwned(t: Tree, pending: seq<Op>)
    requires Owned(t.nodes) && AllSigned(pending) && AllSigned(t.buffered)
    ensures Owned(Sweep(t, pending).0.nodes) && AllSigned(Sweep(t, pending).0.buffered)
    ensures Sweep(t, pending).0.peer == t.peer
    decreases |pending|
  {
    hide Commit, Has, Ready, Signed, Owned;
    if pending != [] {
      var op := pending[0];
      assert op in pending && forall o :: o in pending[1..] ==> o in pending;
      if Has(t.frontier, op.id) {
        SweepOwned(t, pending[1..]);
      } else if Ready(t, op) {
        AppliedOwned(t, op);
        CommitKeeps(t, op);
        SweepOwned(Commit(t, op), pending[1..]);
      } else {
        SweepOwned(t.(buffered := t.buffered + [op]), pending[1..]);
      }
    }
  }

  lemma {:induction false} CommitKeeps(t: Tree, op: Op)
    ensures Commit(t, op).buffered == t.buffered && Commit(t, op).peer == t.peer
  {
  }

  lemma {:induction false} DrainedOwned(t: Tree)
    requires Owned(t.nodes) && AllSigned(t.buffered)
    ensures Owned(Drained(t).nodes) && AllSigned(Drained(t).buffered) && Drained(t).peer == t.peer
    decreases |t.buffered|
  {
    hide Sweep, Owned, AllSigned;
    assert AllSigned([]) by { NoneSigned(); }
    SweepOwned(t.(buffered := []), t.buffered);
    var r := Sweep(t.(buffered := []), t.buffered);
    if r.1 { DrainedOwned(r.0); }
  }

  lemma {:induction false} NoneSigned()
    ensures AllSigned([])
  {
  }

  lemma {:induction false} EnqueuedOwned(t: Tree, ops: seq<Op>)
    requires Owned(t.nodes) && AllSigned(t.buffered) && AllSigned(ops)
    ensures Owned(Enqueued(t, ops).nodes) && AllSigned(Enqueued(t, ops).buffered) && Enqueued(t, ops).peer == t.peer
    decreases |ops|
  {
    hide Has, Signed;
    if ops != [] {
      var op := ops[0];
      assert op in ops && forall o :: o in ops[1..] ==> o in ops;
      var clocked := if op.id.counter > t.counter then t.(counter := op.id.counter) else t;
      var next := if Has(t.frontier, op.id) then clocked else clocked.(buffered := clocked.buffered + [op]);
      EnqueuedOwned(next, ops[1..]);
    }
  }

  /** What happens at one replica: edits of its own and batches from anywhere. */
  datatype Act = Local(edit: Edit) | Receive(ops: seq<Op>)

  function Acted(t: Tree, a: Act): Tree
    requires WellFormed(t)
  {
    match a
    case Local(e) => Edited(t, e)
    case Receive(ops) => Updated(t, ops)
  }

  lemma {:induction false} ActedOwned(t: Tree, a: Act)
    requires WellFormed(t) && Owned(t.nodes) && AllSigned(t.buffered) && (a.Receive? ==> AllSigned(a.ops))
    ensures Owned(Acted(t, a).nodes) && AllSigned(Acted(t, a).buffered) && Acted(t, a).peer == t.peer
  {
    hide WellFormed, Owned, AllSigned, Edited, CommittedBy, Commit, Drained, Enqueued;
    match a
    case Local(e) =>
      EditedIs(t, e);
      if CommittedBy(t, e).Some? {
        var clocked := t.(counter := t.counter + 1);
        MintedKeyIsOwn(t, e);
        AppliedOwned(clocked, CommittedBy(t, e).value);
        CommitKeeps(clocked, CommittedBy(t, e).value);
      }
    case Receive(ops) =>
      EnqueuedOwned(t, ops);
      DrainedOwned(Enqueued(t, ops));
  }

  /** Two siblings with one sort key were placed by one and the same peer. */
  lemma {:induction false} TiesAreOfOnePeer(nodes: map<OpId, Node>, x: OpId, y: OpId)
    requires Owned(nodes) && x in nodes && y in nodes && nodes[x].sort == nodes[y].sort
    ensures nodes[x].stamp.peer == nodes[y].stamp.peer
  {
  }

  /** What one peer placed under one parent has different keys. */
  ghost predicate KeysDifferPerPeer(nodes: map<OpId, Node>) {
    forall x, y :: x in nodes && y in nodes && x != y && LiveSiblings(nodes[x], nodes[y]) ==>
      nodes[x].stamp.peer == nodes[y].stamp.peer ==> nodes[x].sort != nodes[y].sort
  }

  /** Convergence of the text where each peer kept its own keys apart, whatever the others
      minted. */
  lemma {:induction false} PeersConverge(a: Tree, b: Tree)
    requires Coherent(a) && Coherent(b) && Known(a) == Known(b)
    requires Owned(a.nodes) && KeysDifferPerPeer(a.nodes)
    ensures WellFormed(a) && WellFormed(b) && Render(a) == Render(b)
    ensures forall p :: Children(a, p) == Children(b, p)
  {
    CoherentWellFormed(a);
    CoherentWellFormed(b);
    assert KeysDiffer(a.nodes);
    hide *;
    SameKnownSameRender(a, b);
  }

  // ----- two replicas at one slot -----

  /** A create or a move that the replica carries out at a slot with room, and whose id no op
      waits for. */
  ghost predicate Places(t: Tree, e: Edit) {
    && (e.CreateEdit? || e.MoveEdit?) && WellFormed(t) && CommittedBy(t, e).Some?
    && (e.CreateEdit? ==> Room(t, e.parent, Slot(Children(t, e.parent), e.after)))
    && (e.MoveEdit? ==> e.node in t.nodes && t.nodes[e.node].parent.Some?
                        && Room(t, t.nodes[e.node].parent.value,
                                Slot(Children(t, t.nodes[e.node].parent.value), e.after)))
  }

  /** The node an op places, and its parent. */
  function Placed(op: Op): OpId
    requires op.kind.CreateNode? || op.kind.Reorder?
  {
    if op.kind.CreateNode? then op.kind.node else op.kind.target
  }

  ghost predicate Under(nodes: map<OpId, Node>, op: Op, p: OpId)
    requires op.kind.CreateNode? || op.kind.Reorder?
  {
    if op.kind.CreateNode? then op.kind.parent == p
    else op.kind.target in nodes && nodes[op.kind.target].parent == Some(p)
  }

  /** The minted key is none that a live sibling has. */
  lemma {:induction false} PlacedIsNew(t: Tree, e: Edit, p: OpId, y: OpId)
    requires Places(t, e) && ProperKeys(t.nodes)
    requires var op := CommittedBy(t, e).value; (op.kind.CreateNode? || op.kind.Reorder?) && Under(t.nodes, op, p)
    requires y in LiveKids(t.nodes, p)
    ensures y in t.nodes && KeyOf(CommittedBy(t, e).value).Some?
    ensures KeyOf(CommittedBy(t, e).value).value.frac != t.nodes[y].sort.frac
  {
    hide Rooted, KidsIn, Room, KeyAfter, ProperKeys, LiveKids;
    var kids := Children(t, p);
    KidsInAreKids(t.nodes, t.order, p);
    assert y in Elements(kids);
    KeyAfterSeparates(t, p, e.after);
    var i := Slot(kids, e.after);
    assert y in kids[..i] || y in kids[i..] by { assert kids == kids[..i] + kids[i..]; }
    BytesTotal(t.nodes[y].sort.frac, KeyAfter(t, p, e.after).frac);
  }

  /** What both replicas start from: the same ops known, and no waiting op waits for an id that
      is about to be made. */
  ghost predicate Level(s: Tree, t: Tree) {
    && Coherent(s) && Coherent(t) && Known(s) == Known(t) && s.peer != t.peer
    && forall op :: (op in s.buffered || op in t.buffered) && Simple(op) ==>
         Needs(op) != NextId(s) && Needs(op) != NextId(t)
  }

  /** The op a replica makes, which it applies at once. */
  lemma {:induction false} PlacingCoherent(t: Tree, e: Edit)
    requires Coherent(t) && Places(t, e) && forall op :: op in t.buffered && Simple(op) ==> Needs(op) != NextId(t)
    ensures var op := CommittedBy(t, e).value;
            && ValidOp(op) && op.id == NextId(t) && Needs(op) in t.nodes && (op.kind.CreateNode? || op.kind.Reorder?)
            && Coherent(Edited(t, e)) && Known(Edited(t, e)) == Known(t) + {op}
  {
    hide KeyAfter, Core, Stuck, Room, Commit, Edited, Rooted;
    var op := CommittedBy(t, e).value;
    EditedIs(t, e);
    assert Op(NextId(t), op.kind) == op;
    forall o | o in t.buffered ensures Simple(o) && Needs(o) != NextId(t) {
      assert o in Known(t) && ValidOp(o);
    }
    LocalCoherent(t, op.kind);
  }

  lemma {:induction false} NewIds(s: Tree, t: Tree, e: Op, f: Op)
    requires Coherent(s) && Coherent(t) && Known(s) == Known(t) && s.peer != t.peer
    requires ValidOp(e) && ValidOp(f) && e.id == NextId(s) && f.id == NextId(t)
    ensures Genuine(Known(s) + {e, f}) && e.id !in s.nodes && f.id !in s.nodes && e.id != f.id
  {
    hide Stuck, Faithful;
    NextIsNew(s);
    NextIsNew(t);
    NodeKnown(s, e.id);
    NodeKnown(s, f.id);
  }

  lemma {:induction false} NodeKnown(t: Tree, n: OpId)
    requires Coherent(t)
    ensures n in t.nodes ==> n == ROOT || exists c :: c in Known(t) && c.id == n
  {
    hide Stuck, Rooted, NodeIs, Denotes, Supported, Genuine, Clocked;
    if n in t.nodes && n != ROOT {
      var c :| c in t.log && c.kind.CreateNode? && c.id == n;
      assert c in Known(t);
    }
  }

  lemma {:induction false} KnownSimple(t: Tree)
    requires Coherent(t)
    ensures forall op :: op in Known(t) ==> Simple(op)
  {
    hide Core, Stuck;
  }

  /** After the exchange exactly the two new ops are applied beside the old ones. */
  lemma {:induction false} BothApplied(s: Tree, t: Tree, a: Tree, e: Op, f: Op)
    requires Level(s, t) && Coherent(a) && Known(a) == Known(s) + {e, f}
    requires ValidOp(e) && ValidOp(f) && e.id == NextId(s) && f.id == NextId(t)
    requires Needs(e) in s.nodes && Needs(f) in s.nodes
    ensures Elements(a.log) == Elements(s.log) + {e, f}
  {
    hide *;
    BothIn(s, a, e, f) by { assert Coherent(s) by { LevelCoherent(s, t); } }
    NothingElse(s, t, a, e, f);
  }

  lemma {:induction false} LevelCoherent(s: Tree, t: Tree)
    requires Level(s, t)
    ensures Coherent(s) && Coherent(t) && Known(s) == Known(t)
  {
  }

  lemma {:induction false} BothIn(s: Tree, a: Tree, e: Op, f: Op)
    requires Coherent(s) && Coherent(a) && Known(a) == Known(s) + {e, f} && ValidOp(e) && ValidOp(f)
    requires Needs(e) in s.nodes && Needs(f) in s.nodes
    ensures Elements(s.log) + {e, f} <= Elements(a.log)
  {
    CoreSupported(s);
    assert Elements(s.log) <= Known(a);
    assert e in Known(a) && f in Known(a);
    hide Coherent, Known, Supported, HasCreate;
    AppliedEverywhere(s.log, a);
    NeedsApplied(s, a, e);
    NeedsApplied(s, a, f);
    AppliedIsClosed(a, e);
    AppliedIsClosed(a, f);
  }

  lemma {:induction false} NothingElse(s: Tree, t: Tree, a: Tree, e: Op, f: Op)
    requires Level(s, t) && Coherent(a) && Known(a) == Known(s) + {e, f}
    requires e.id == NextId(s) && f.id == NextId(t)
    ensures Elements(a.log) <= Elements(s.log) + {e, f}
  {
    hide *;
    var closed := Elements(s.log) + {e, f};
    forall op | op in Known(a) ensures Reached(op, closed) ==> op in closed {
      if op != e && op != f { OldStays(s, t, op, closed, e, f); }
    }
    ReachedIsLeast(a, closed);
  }

  /** What the op needs is there or is made by one of these ops. */
  ghost predicate Reached(op: Op, closed: set<Op>) {
    Simple(op) && (Needs(op) == ROOT || exists c :: c in closed && c.kind.CreateNode? && c.id == Needs(op))
  }

  lemma {:induction false} ReachedIsLeast(t: Tree, closed: set<Op>)
    requires Coherent(t) && forall op :: op in Known(t) ==> Reached(op, closed) ==> op in closed
    ensures Elements(t.log) <= closed
  {
    KnownSimple(t);
    hide Coherent, Known, Needs;
    AppliedIsLeast(t, closed);
  }

  lemma {:induction false} NeedsApplied(s: Tree, a: Tree, e: Op)
    requires Coherent(s) && Elements(s.log) <= Elements(a.log) && Simple(e) && Needs(e) in s.nodes
    ensures Needs(e) == ROOT || HasCreate(a.log, Needs(e))
  {
    hide Rooted, NodeIs, Denotes, Clocked, Genuine, Stuck, Supported;
    if Needs(e) != ROOT {
      var c :| c in s.log && c.kind.CreateNode? && c.id == Needs(e);
      assert c in Elements(a.log);
    }
  }

  lemma {:induction false} OldStays(s: Tree, t: Tree, op: Op, closed: set<Op>, e: Op, f: Op)
    requires Level(s, t) && op in Known(s) && closed == Elements(s.log) + {e, f}
    requires e.id == NextId(s) && f.id == NextId(t)
    ensures Reached(op, closed) ==> op in closed
  {
    hide Core, Stuck, Genuine;
    if op !in s.log && Reached(op, closed) {
      assert op in s.buffered;
      assert Needs(op) == ROOT || HasCreate(s.log, Needs(op));
      AppliedIsClosed(s, op);
    }
  }

  /** Where a record of `a` comes from: unchanged from `s`, or placed by one of the new ops. */
  ghost predicate Sourced(s: Tree, a: Tree, e: Op, f: Op, x: OpId)
    requires x in a.nodes
    requires (e.kind.CreateNode? || e.kind.Reorder?) && (f.kind.CreateNode? || f.kind.Reorder?)
  {
    || (x in s.nodes && a.nodes[x].parent == s.nodes[x].parent && a.nodes[x].sort == s.nodes[x].sort)
    || PlacedBy(s, a, e, x)
    || PlacedBy(s, a, f, x)
  }

  ghost predicate PlacedBy(s: Tree, a: Tree, e: Op, x: OpId)
    requires x in a.nodes && (e.kind.CreateNode? || e.kind.Reorder?)
  {
    Placed(e) == x && KeyOf(e) == Some(a.nodes[x].sort) && a.nodes[x].parent.Some?
    && Under(s.nodes, e, a.nodes[x].parent.value)
  }

  /** What an op moves has a parent. */
  predicate Anchored(s: Tree, e: Op) {
    e.kind.Reorder? ==> e.kind.target in s.nodes && s.nodes[e.kind.target].parent.Some?
  }

  /** Every record of `a` is one of `s`, or was placed by one of the two ops. */
  lemma {:induction false} RecordSourced(s: Tree, a: Tree, e: Op, f: Op, x: OpId)
    requires Coherent(s) && Coherent(a) && Elements(a.log) == Elements(s.log) + {e, f} && x in a.nodes
    requires (e.kind.CreateNode? || e.kind.Reorder?) && (f.kind.CreateNode? || f.kind.Reorder?)
    requires ValidOp(e) && ValidOp(f) && Needs(e) in s.nodes && Needs(f) in s.nodes
    requires e.id !in s.nodes && f.id !in s.nodes && e.id != f.id && Anchored(s, e) && Anchored(s, f)
    ensures Sourced(s, a, e, f, x) && (x in s.nodes && a.nodes[x].tomb.None? ==> s.nodes[x].tomb.None?)
  {
    RecordIs(s, x);
    RecordIs(a, x);
    assert Genuine(Elements(a.log)) by { LogGenuine(a); }
    hide Coherent, Supported;
    if x in s.nodes {
      OldSourced(s, a, e, f, x);
    } else {
      MadeSourced(s, a, e, f, x);
    }
  }

  lemma {:induction false} RecordIs(t: Tree, x: OpId)
    requires Coherent(t)
    ensures x in t.nodes ==> NodeIs(x, t.nodes[x], Elements(t.log))
    ensures x in t.nodes <==> x == ROOT || HasCreate(t.log, x)
    ensures forall op :: op in t.log && Simple(op) ==> Needs(op) in t.nodes
  {
    hide Rooted, NodeIs, Denotes, Clocked, Genuine, Stuck;
    forall op | op in t.log && Simple(op) ensures Needs(op) in t.nodes {
      CreateBefore(t.log, op);
    }
  }

  lemma {:induction false} LogGenuine(t: Tree)
    requires Coherent(t)
    ensures Genuine(Elements(t.log))
  {
    hide Core, Stuck;
    assert Elements(t.log) <= Known(t);
  }

  lemma {:induction false} OldSourced(s: Tree, a: Tree, e: Op, f: Op, x: OpId)
    requires Elements(a.log) == Elements(s.log) + {e, f} && x in a.nodes && x in s.nodes
    requires (e.kind.CreateNode? || e.kind.Reorder?) && (f.kind.CreateNode? || f.kind.Reorder?)
    requires NodeIs(x, s.nodes[x], Elements(s.log)) && NodeIs(x, a.nodes[x], Elements(a.log))
    requires Genuine(Elements(a.log)) && e.id !in s.nodes && f.id !in s.nodes && Anchored(s, e) && Anchored(s, f)
    ensures Sourced(s, a, e, f, x) && (a.nodes[x].tomb.None? ==> s.nodes[x].tomb.None?)
  {
    if x == ROOT {
      SortSourced(e, f, ROOT, ROOT, ROOT_NODE.sort, s.nodes[x], a.nodes[x], Elements(s.log), Elements(a.log));
    } else {
      var d :| CreatedBy(x, s.nodes[x], Elements(s.log), d);
      var c :| CreatedBy(x, a.nodes[x], Elements(a.log), c);
      assert c in Elements(a.log) && d in Elements(a.log) && c == d;
      SortSourced(e, f, x, x, c.kind.sort, s.nodes[x], a.nodes[x], Elements(s.log), Elements(a.log));
    }
  }

  /** The greatest of a larger set of reorders is the old greatest or one of the new ones. */
  lemma {:induction false} SortSourced(e: Op, f: Op, x: OpId, base: OpId, baseSort: SortKey, was: Node, rec: Node,
      ops: set<Op>, all: set<Op>)
    requires all == ops + {e, f} && Genuine(all)
    requires SortIs(x, base, baseSort, ops, was.stamp, was.sort) && SortIs(x, base, baseSort, all, rec.stamp, rec.sort)
    ensures rec.sort == was.sort || (Reorders(e, x) && rec.sort == e.kind.newSort)
            || (Reorders(f, x) && rec.sort == f.kind.newSort)
  {
    if !(Reorders(e, x) && rec.sort == e.kind.newSort) && !(Reorders(f, x) && rec.sort == f.kind.newSort) {
      assert SortIs(x, base, baseSort, ops, rec.stamp, rec.sort);
      assert Genuine(ops) by { hide SortIs; }
      SortUnique(x, base, baseSort, ops, rec.stamp, rec.sort, was.stamp, was.sort);
    }
  }

  lemma {:induction false} MadeSourced(s: Tree, a: Tree, e: Op, f: Op, x: OpId)
    requires Elements(a.log) == Elements(s.log) + {e, f} && x in a.nodes && x !in s.nodes
    requires (e.kind.CreateNode? || e.kind.Reorder?) && (f.kind.CreateNode? || f.kind.Reorder?)
    requires NodeIs(x, a.nodes[x], Elements(a.log)) && (x in s.nodes <==> x == ROOT || HasCreate(s.log, x))
    requires Genuine(Elements(a.log)) && Needs(e) in s.nodes && Needs(f) in s.nodes
    requires forall op :: op in s.log && Simple(op) ==> Needs(op) in s.nodes
    ensures Sourced(s, a, e, f, x)
  {
    var c :| CreatedBy(x, a.nodes[x], Elements(a.log), c);
    assert c == e || c == f;
    assert forall r :: r in Elements(a.log) ==> !Reorders(r, x);
  }

  lemma {:induction false} PlacingAnchored(t: Tree, e: Edit)
    requires Places(t, e)
    ensures Anchored(t, CommittedBy(t, e).value)
  {
    hide Rooted, KidsIn, KeyAfter, Room;
  }

  /** Keys differ among live siblings after the exchange, the two new ones included. */
  lemma {:induction false} ExchangeKeepsKeys(s: Tree, t: Tree, a: Tree, e: Edit, f: Edit)
    requires WellFormed(s) && WellFormed(t) && s.nodes == t.nodes && s.peer != t.peer
    requires Places(s, e) && Places(t, f) && KeysDiffer(s.nodes) && ProperKeys(s.nodes)
    requires var op, op' := CommittedBy(s, e).value, CommittedBy(t, f).value;
             && (op.kind.CreateNode? || op.kind.Reorder?) && (op'.kind.CreateNode? || op'.kind.Reorder?)
             && forall x :: x in a.nodes ==>
                  Sourced(s, a, op, op', x)
                  && (x in s.nodes && a.nodes[x].tomb.None? ==> s.nodes[x].tomb.None?)
    ensures KeysDiffer(a.nodes)
  {
    var op, op' := CommittedBy(s, e).value, CommittedBy(t, f).value;
    forall x, y | x in a.nodes && y in a.nodes && x != y && LiveSiblings(a.nodes[x], a.nodes[y])
      ensures a.nodes[x].sort != a.nodes[y].sort
    {
      PairDiffers(s, t, a, e, f, x, y);
    }
  }

  lemma {:induction false} PairDiffers(s: Tree, t: Tree, a: Tree, e: Edit, f: Edit, x: OpId, y: OpId)
    requires WellFormed(s) && WellFormed(t) && s.nodes == t.nodes && s.peer != t.peer
    requires Places(s, e) && Places(t, f) && KeysDiffer(s.nodes) && ProperKeys(s.nodes)
    requires x in a.nodes && y in a.nodes && x != y && LiveSiblings(a.nodes[x], a.nodes[y])
    requires var op, op' := CommittedBy(s, e).value, CommittedBy(t, f).value;
             && (op.kind.CreateNode? || op.kind.Reorder?) && (op'.kind.CreateNode? || op'.kind.Reorder?)
             && Sourced(s, a, op, op', x) && Sourced(s, a, op, op', y)
             && (x in s.nodes && a.nodes[x].tomb.None? ==> s.nodes[x].tomb.None?)
             && (y in s.nodes && a.nodes[y].tomb.None? ==> s.nodes[y].tomb.None?)
    ensures a.nodes[x].sort != a.nodes[y].sort
  {
    assert CommittedBy(s, e).Some? && CommittedBy(t, f).Some?;
    hide WellFormed, Places, ProperKeys, CommittedBy;
    var op, op' := CommittedBy(s, e).value, CommittedBy(t, f).value;
    if PlacedBy(s, a, op, x) {
      PlacedDiffers(s, s, t, a, e, f, x, y);
    } else if PlacedBy(s, a, op', x) {
      PlacedDiffers(s, t, s, a, f, e, x, y);
    } else if PlacedBy(s, a, op, y) {
      PlacedDiffers(s, s, t, a, e, f, y, x);
    } else if PlacedBy(s, a, op', y) {
      PlacedDiffers(s, t, s, a, f, e, y, x);
    }
  }

  /** What `e` places has another key than any live sibling, old or placed by the other. */
  lemma {:induction false} PlacedDiffers(s: Tree, t: Tree, u: Tree, a: Tree, e: Edit, f: Edit, x: OpId, y: OpId)
    requires WellFormed(t) && WellFormed(u) && s.nodes == t.nodes == u.nodes && t.peer != u.peer
    requires Places(t, e) && Places(u, f) && ProperKeys(t.nodes)
    requires x in a.nodes && y in a.nodes && x != y && LiveSiblings(a.nodes[x], a.nodes[y])
    requires y in s.nodes ==> s.nodes[y].tomb.None?
    requires var op, op' := CommittedBy(t, e).value, CommittedBy(u, f).value;
             && (op.kind.CreateNode? || op.kind.Reorder?) && (op'.kind.CreateNode? || op'.kind.Reorder?)
             && PlacedBy(s, a, op, x) && Sourced(s, a, op, op', y)
    ensures a.nodes[x].sort != a.nodes[y].sort
  {
    hide WellFormed, ProperKeys, CommittedBy, Room;
    var op, op' := CommittedBy(t, e).value, CommittedBy(u, f).value;
    if PlacedBy(s, a, op', y) {
      MintedKeysDiffer(t, u, e, f);
    } else {
      assert y in s.nodes && a.nodes[y].sort == s.nodes[y].sort;
      PlacedIsNew(t, e, a.nodes[x].parent.value, y);
    }
  }

  lemma {:induction false} ExchangeProper(s: Tree, t: Tree, a: Tree, e: Edit, f: Edit)
    requires WellFormed(s) && WellFormed(t) && s.nodes == t.nodes && Places(s, e) && Places(t, f) && ProperKeys(s.nodes)
    requires var op, op' := CommittedBy(s, e).value, CommittedBy(t, f).value;
             && (op.kind.CreateNode? || op.kind.Reorder?) && (op'.kind.CreateNode? || op'.kind.Reorder?)
             && forall x :: x in a.nodes ==> Sourced(s, a, op, op', x)
    ensures ProperKeys(a.nodes)
  {
    MintedIsProper(s, e);
    MintedIsProper(t, f);
    hide Places, CommittedBy, Proper, WellFormed;
  }

  lemma {:induction false} MintedIsProper(t: Tree, e: Edit)
    requires Places(t, e) && ProperKeys(t.nodes)
    ensures CommittedBy(t, e).Some? && KeyOf(CommittedBy(t, e).value).Some?
    ensures Proper(KeyOf(CommittedBy(t, e).value).value.frac)
  {
    hide Rooted, KidsIn, Room, KeyAfter, ProperKeys, Slot, Proper;
    KeyAfterSeparates(t, if e.CreateEdit? then e.parent else t.nodes[e.node].parent.value, e.after);
  }

  /** Two replicas that know the same place one node each, at any slots, the same one included,
      and exchange the two ops: they render the same text, whatever keys they minted, and
      their keys differ again for the next round. */
  lemma {:induction false} ExchangeRendersAlike(s: Tree, t: Tree, e: Edit, f: Edit)
    requires Level(s, t) && Places(s, e) && Places(t, f) && KeysDiffer(s.nodes) && ProperKeys(s.nodes)
    ensures var op, op' := CommittedBy(s, e).value, CommittedBy(t, f).value;
            var a, b := Updated(Edited(s, e), [op']), Updated(Edited(t, f), [op]);
            && Coherent(a) && Coherent(b) && Known(a) == Known(b) == Known(s) + {op, op'}
            && WellFormed(a) && WellFormed(b) && Render(a) == Render(b)
            && (forall p :: Children(a, p) == Children(b, p)) && KeysDiffer(a.nodes) && ProperKeys(a.nodes)
  {
    hide *;
    LevelFacts(s, t);
    PlacesFacts(s, e);
    PlacesFacts(t, f);
    var op, op' := CommittedBy(s, e).value, CommittedBy(t, f).value;
    PlacingCoherent(s, e);
    PlacingCoherent(t, f);
    NewIds(s, t, op, op');
    OneMore(Edited(s, e), op', Known(s) + {op, op'});
    OneMore(Edited(t, f), op, Known(s) + {op, op'});
    BothRender(s, t, Updated(Edited(s, e), [op']), Updated(Edited(t, f), [op]), e, f);
  }

  lemma {:induction false} BothRender(s: Tree, t: Tree, a: Tree, b: Tree, e: Edit, f: Edit)
    requires Level(s, t) && Places(s, e) && Places(t, f) && KeysDiffer(s.nodes) && ProperKeys(s.nodes)
    requires Coherent(a) && Coherent(b) && Known(a) == Known(b)
    requires Known(a) == Known(s) + {CommittedBy(s, e).value, CommittedBy(t, f).value}
    ensures WellFormed(a) && WellFormed(b) && Render(a) == Render(b)
    ensures (forall p :: Children(a, p) == Children(b, p)) && KeysDiffer(a.nodes) && ProperKeys(a.nodes)
  {
    hide *;
    ExchangeKeys(s, t, a, e, f);
    CoherentWellFormed(a);
    CoherentWellFormed(b);
    SameKnownSameRender(a, b);
  }

  lemma {:induction false} ExchangeKeys(s: Tree, t: Tree, a: Tree, e: Edit, f: Edit)
    requires Level(s, t) && Places(s, e) && Places(t, f) && KeysDiffer(s.nodes) && ProperKeys(s.nodes) && Coherent(a)
    requires Known(a) == Known(s) + {CommittedBy(s, e).value, CommittedBy(t, f).value}
    ensures KeysDiffer(a.nodes) && ProperKeys(a.nodes)
  {
    hide *;
    LevelFacts(s, t);
    PlacesFacts(s, e);
    PlacesFacts(t, f);
    var op, op' := CommittedBy(s, e).value, CommittedBy(t, f).value;
    PlacingCoherent(s, e);
    PlacingCoherent(t, f);
    SameKnownSameState(s, t);
    PlacingAnchored(s, e);
    PlacingAnchored(t, f);
    AnchoredSame(s, t, op');
    RecordsSourced(s, t, a, op, op');
    ExchangeKeepsKeys(s, t, a, e, f);
    ExchangeProper(s, t, a, e, f);
  }

  lemma {:induction false} RecordsSourced(s: Tree, t: Tree, a: Tree, e: Op, f: Op)
    requires Level(s, t) && Coherent(s) && Coherent(t) && Coherent(a) && Known(a) == Known(s) + {e, f}
    requires Known(s) == Known(t) && s.peer != t.peer
    requires (e.kind.CreateNode? || e.kind.Reorder?) && (f.kind.CreateNode? || f.kind.Reorder?)
    requires ValidOp(e) && ValidOp(f) && e.id == NextId(s) && f.id == NextId(t)
    requires Needs(e) in s.nodes && Needs(f) in s.nodes && Anchored(s, e) && Anchored(s, f)
    ensures forall x :: x in a.nodes ==>
              Sourced(s, a, e, f, x) && (x in s.nodes && a.nodes[x].tomb.None? ==> s.nodes[x].tomb.None?)
  {
    hide *;
    NewIds(s, t, e, f);
    BothApplied(s, t, a, e, f);
    forall x | x in a.nodes
      ensures Sourced(s, a, e, f, x) && (x in s.nodes && a.nodes[x].tomb.None? ==> s.nodes[x].tomb.None?)
    {
      RecordSourced(s, a, e, f, x);
    }
  }

  lemma {:induction false} LevelFacts(s: Tree, t: Tree)
    requires Level(s, t)
    ensures Coherent(s) && Coherent(t) && Known(s) == Known(t) && s.peer != t.peer && WellFormed(s) && WellFormed(t)
    ensures forall op :: op in s.buffered && Simple(op) ==> Needs(op) != NextId(s)
    ensures forall op :: op in t.buffered && Simple(op) ==> Needs(op) != NextId(t)
  {
    CoherentWellFormed(s);
    CoherentWellFormed(t);
  }

  lemma {:induction false} PlacesFacts(t: Tree, e: Edit)
    requires Places(t, e)
    ensures WellFormed(t) && CommittedBy(t, e).Some?
  {
  }

  lemma {:induction false} AnchoredSame(s: Tree, t: Tree, op: Op)
    requires s.nodes == t.nodes && Anchored(t, op)
    ensures Anchored(s, op)
  {
  }

  lemma {:induction false} OneMore(t: Tree, op: Op, all: set<Op>)
    requires Coherent(t) && Known(t) + {op} == all && Genuine(all)
    ensures Coherent(Updated(t, [op])) && Known(Updated(t, [op])) == all
  {
    hide Coherent, Known, Genuine, Updated;
    assert Elements([op]) == {op};
    UpdatedCoherent(t, [op]);
  }

  /** What two empty replicas each create at the front of the root. */
  function FirstLeaf(text: string): Edit {
    CreateEdit(ROOT, None, Leaf(Token, text))
  }

  lemma {:induction false} FirstLeafPlaces(peer: nat, text: string)
    ensures var t := EmptyTree(peer);
            && Places(t, FirstLeaf(text))
            && CommittedBy(t, FirstLeaf(text))
               == Some(Op(OpId(1, peer), CreateNode(OpId(1, peer), ROOT, KeyAfter(t, ROOT, None), Leaf(Token, text))))
            && KeyAfter(t, ROOT, None) == SortKey(Between(None, None), peer)
  {
    EmptyKids(peer);
    hide KidsIn, Rooted, Between;
  }

  /** Two replicas that start empty, both create a leaf at the front of the root at once and
      exchange the ops: both read the leaf of the smaller peer first. */
  lemma {:induction false} FirstLeavesReadByPeer(p: nat, q: nat, x: string, y: string)
    requires p < q
    ensures var s, t := EmptyTree(p), EmptyTree(q);
            && WellFormed(s) && WellFormed(t)
            && CommittedBy(s, FirstLeaf(x)).Some? && CommittedBy(t, FirstLeaf(y)).Some?
            && var a := Updated(Edited(s, FirstLeaf(x)), [CommittedBy(t, FirstLeaf(y)).value]);
               var b := Updated(Edited(t, FirstLeaf(y)), [CommittedBy(s, FirstLeaf(x)).value]);
               WellFormed(a) && WellFormed(b) && Render(a) == Render(b) == x + y
  {
    hide *;
    var s, t := EmptyTree(p), EmptyTree(q);
    FirstLeafPlaces(p, x);
    FirstLeafPlaces(q, y);
    PlacesFacts(s, FirstLeaf(x));
    PlacesFacts(t, FirstLeaf(y));
    EmptyLevel(p, q);
    ExchangeRendersAlike(s, t, FirstLeaf(x), FirstLeaf(y));
    var op, op' := CommittedBy(s, FirstLeaf(x)).value, CommittedBy(t, FirstLeaf(y)).value;
    FirstKeysOrder(p, q, op, op');
    var c := TwoCreatesRead(op, op', x, y);
    var a := Updated(Edited(s, FirstLeaf(x)), [op']);
    EmptyCoherent(p);
    assert {} + {op, op'} == {op, op'};
    SameKnownSameRender(a, c);
  }

  lemma {:induction false} FirstKeysOrder(p: nat, q: nat, op: Op, op': Op)
    requires p < q && op.id == OpId(1, p) && op'.id == OpId(1, q) && op.kind.CreateNode? && op'.kind.CreateNode?
    requires op.kind.node == op.id && op'.kind.node == op'.id
    requires op.kind.sort == SortKey(Between(None, None), p) && op'.kind.sort == SortKey(Between(None, None), q)
    ensures ValidOp(op) && ValidOp(op') && KeyLess(op.kind.sort, op'.kind.sort)
  {
    hide Between;
  }

  lemma {:induction false} EmptyLevel(p: nat, q: nat)
    requires p != q
    ensures Level(EmptyTree(p), EmptyTree(q)) && KeysDiffer(EmptyTree(p).nodes) && ProperKeys(EmptyTree(p).nodes)
  {
    EmptyCoherent(p);
    EmptyCoherent(q);
    hide Coherent;
  }

  lemma {:induction false} TwoCreatesRead(op: Op, op': Op, x: string, y: string) returns (c: Tree)
    requires ValidOp(op) && ValidOp(op') && op.id != op'.id && op.kind.CreateNode? && op'.kind.CreateNode?
    requires op.kind.parent == ROOT && op'.kind.parent == ROOT && KeyLess(op.kind.sort, op'.kind.sort)
    requires op.kind.seed == Leaf(Token, x) && op'.kind.seed == Leaf(Token, y)
    ensures Coherent(c) && Known(c) == {op, op'} && WellFormed(c) && Render(c) == x + y
  {
    hide *;
    ValidCreates(op, op');
    c := TwoCreates(op, op');
    TwoCreatesKnown(op, op');
    TwoNodes(c, op, op');
    ReadsTwo(c, op.id, op'.id);
  }

  lemma {:induction false} ValidCreates(op: Op, op': Op)
    requires ValidOp(op) && ValidOp(op') && op.kind.CreateNode? && op'.kind.CreateNode?
    ensures op.id.counter >= 1 && op'.id.counter >= 1 && op.kind.node == op.id && op'.kind.node == op'.id
  {
  }

  /** Two leaves under the root read in the order of their keys. */
  lemma {:induction false} ReadsTwo(t: Tree, x: OpId, y: OpId)
    requires WellFormed(t) && t.order == [ROOT, x, y] && x != y && x != ROOT && y != ROOT
    requires x in t.nodes && y in t.nodes && LiveKids(t.nodes, ROOT) == {x, y}
    requires t.nodes[x].body.Leaf? && t.nodes[y].body.Leaf? && KeyLess(t.nodes[x].sort, t.nodes[y].sort)
    ensures Render(t) == t.nodes[x].body.text + t.nodes[y].body.text
  {
    ThreeInOrder(x, y);
    assert Elements([x, y]) == {x, y};
    hide Rooted, RenderAt, KidsIn, LiveKids, IndexOf;
    KidsAre(t.nodes, t.order, ROOT, [x, y]);
    TwoLeaves(t, x, y);
  }
}
