/** Delivery histories, `diff`, and one pull of anti-entropy between two replicas. */
module TreeAntiEntropy {
  import opened Wrappers
  import opened Sequences
  import opened FractionalKeys
  import opened VersionFrontier
  import opened TreeState
  import opened TreeConvergence
  import opened TreeAgreement

  // ----- delivery histories -----

  function Delivered(t: Tree, batches: seq<seq<Op>>): Tree
    decreases |batches|
  {
    if batches == [] then t else Delivered(Updated(t, batches[0]), batches[1..])
  }

  function AllOps(batches: seq<seq<Op>>): set<Op> {
    set b, op | b in batches && op in b :: op
  }

  lemma {:induction false} DeliveredCoherent(t: Tree, batches: seq<seq<Op>>)
    requires Coherent(t) && Genuine(Known(t) + AllOps(batches))
    ensures Coherent(Delivered(t, batches)) && Known(Delivered(t, batches)) == Known(t) + AllOps(batches)
    decreases |batches|
  {
    hide Core, Stuck, Updated, ValidOp;
    if batches != [] {
      assert batches == [batches[0]] + batches[1..];
      assert AllOps(batches) == Elements(batches[0]) + AllOps(batches[1..]);
      assert Genuine(Known(t) + Elements(batches[0]));
      UpdatedCoherent(t, batches[0]);
      DeliveredCoherent(Updated(t, batches[0]), batches[1..]);
    }
  }

  /** Convergence: two replicas that start with the same knowledge and are delivered the
      same ops, in any order, batching and repetition, end in the same state. */
  lemma {:induction false} DeliveriesConverge(s: Tree, t: Tree, xs: seq<seq<Op>>, ys: seq<seq<Op>>)
    requires Coherent(s) && Coherent(t) && Known(s) == Known(t)
    requires AllOps(xs) == AllOps(ys) && Genuine(Known(s) + AllOps(xs))
    ensures var a, b := Delivered(s, xs), Delivered(t, ys);
            Coherent(a) && Coherent(b)
            && Elements(a.log) == Elements(b.log) && a.frontier == b.frontier && a.nodes == b.nodes
            && (KeysDiffer(a.nodes) ==> Render(a) == Render(b) && forall p :: Children(a, p) == Children(b, p))
  {
    hide Faithful, Clocked, Stuck, Genuine, KeysDiffer, KidsIn, Delivered;
    DeliveredCoherent(s, xs);
    DeliveredCoherent(t, ys);
    var a, b := Delivered(s, xs), Delivered(t, ys);
    SameKnownSameState(a, b);
    CoherentWellFormed(a);
    CoherentWellFormed(b);
    if KeysDiffer(a.nodes) {
      SameKnownSameRender(a, b);
    }
  }

  lemma {:induction false} CoherentWellFormed(t: Tree)
    requires Coherent(t)
    ensures WellFormed(t)
  {
  }

  // ----- a tie that does diverge -----

  /** Without waiting ops, delivering one ready op commits it. */
  lemma {:induction false} UpdatedOne(t: Tree, op: Op)
    requires t.buffered == [] && !Has(t.frontier, op.id) && Ready(t, op)
    ensures Updated(t, [op]) == Commit(if op.id.counter > t.counter then t.(counter := op.id.counter) else t, op)
  {
    hide Commit, Has;
    var e := if op.id.counter > t.counter then t.(counter := op.id.counter) else t;
    assert [op][1..] == [];
    assert Enqueued(t, [op]) == e.(buffered := [op]);
    assert e.(buffered := []) == e;
    var c := Commit(e, op);
    assert c.buffered == [] by { CommitKeepsBuffer(e, op); }
    assert c.(buffered := []) == c;
    assert Sweep(c, []) == (c, false);
    assert Ready(e, op);
    assert Sweep(e, [op]) == (c, true);
    assert Drained(e.(buffered := [op])) == Drained(c) == c;
  }

  lemma {:induction false} CommitKeepsBuffer(t: Tree, op: Op)
    ensures Commit(t, op).buffered == t.buffered
  {
  }

  /** Two siblings with one sort key: what a peer issues when it creates a node, deletes
      it, and creates another in its place. */
  const KEY := SortKey([128], 1)
  const FIRST := Op(OpId(1, 1), CreateNode(OpId(1, 1), ROOT, KEY, Leaf(Token, "a")))
  const SECOND := Op(OpId(3, 1), CreateNode(OpId(3, 1), ROOT, KEY, Leaf(Token, "b")))

  lemma {:induction false} CommitOrder(t: Tree, op: Op)
    requires op.kind.CreateNode? && op.kind.node !in t.nodes
    ensures Commit(t, op).order == t.order + [op.kind.node]
    ensures Commit(t, op).nodes
        == t.nodes[op.kind.node := Node(Some(op.kind.parent), op.kind.sort, op.id, op.kind.seed, None, op.id)]
    ensures Commit(t, op).frontier == ObservedIn(t.frontier, op.id)
  {
  }

  /** Delivered without the delete between them, the two creations leave two replicas with
      the same ops and records but a different order of children. */
  lemma {:induction false} TiedSiblingsDiverge()
    ensures var a := Updated(Updated(EmptyTree(2), [FIRST]), [SECOND]);
            var b := Updated(Updated(EmptyTree(2), [SECOND]), [FIRST]);
            Known(a) == Known(b) && a.nodes == b.nodes && Children(a, ROOT) != Children(b, ROOT)
            && WellFormed(a) && WellFormed(b) && Render(a) != Render(b)
  {
    hide KidsIn, Updated, Known, Coherent, Rooted, RenderAt, LiveKids;
    var a := TwoCreates(FIRST, SECOND);
    var b := TwoCreates(SECOND, FIRST);
    TwoNodes(a, FIRST, SECOND);
    TwoNodes(b, SECOND, FIRST);
    assert a.nodes == b.nodes;
    TwoCreatesKnown(FIRST, SECOND);
    TwoCreatesKnown(SECOND, FIRST);
    TieShows(a, b, FIRST.id, SECOND.id);
    assert ("a" + "b")[0] != ("b" + "a")[0];
    TieReads(a, b, FIRST.id, SECOND.id);
  }

  lemma {:induction false} TwoNodes(c: Tree, op: Op, op': Op)
    requires op.id.counter >= 1 && op'.id.counter >= 1 && op.id != op'.id
    requires op.kind.CreateNode? && op'.kind.CreateNode? && op.kind.parent == ROOT && op'.kind.parent == ROOT
    requires c.nodes == map[ROOT := ROOT_NODE][op.id := Node(Some(ROOT), op.kind.sort, op.id, op.kind.seed, None,
        op.id)][op'.id := Node(Some(ROOT), op'.kind.sort, op'.id, op'.kind.seed, None, op'.id)]
    ensures op.id != ROOT && op'.id != ROOT && op.id in c.nodes && op'.id in c.nodes
    ensures LiveKids(c.nodes, ROOT) == {op.id, op'.id}
    ensures c.nodes[op.id].body == op.kind.seed && c.nodes[op'.id].body == op'.kind.seed
    ensures c.nodes[op.id].sort == op.kind.sort && c.nodes[op'.id].sort == op'.kind.sort
  {
  }

  /** Two leaves read in the order in which they are listed. */
  lemma {:induction false} TwoLeaves(t: Tree, x: OpId, y: OpId)
    requires WellFormed(t) && x in t.nodes && t.nodes[x].body.Leaf? && y in t.nodes && t.nodes[y].body.Leaf?
    requires Children(t, ROOT) == [x, y]
    ensures Render(t) == t.nodes[x].body.text + t.nodes[y].body.text
  {
    hide KidsIn, BehindParent, LiveKids;
    KidsInAreKids(t.nodes, t.order, ROOT);
    assert x in Children(t, ROOT) && y in Children(t, ROOT);
    KidIsLower(t.nodes, t.order, ROOT, x);
    KidIsLower(t.nodes, t.order, ROOT, y);
    assert ROOT in t.nodes && t.nodes[ROOT].body.Element?;
    hide Height, Rooted;
    assert [x, y][1..] == [y] && [y][1..] == [];
    assert RenderKids(t.nodes, t.order, ROOT, []) == "";
    assert RenderKids(t.nodes, t.order, ROOT, [y]) == t.nodes[y].body.text + "";
    assert RenderKids(t.nodes, t.order, ROOT, [x, y]) == t.nodes[x].body.text + t.nodes[y].body.text;
  }

  lemma {:induction false} TieReads(a: Tree, b: Tree, x: OpId, y: OpId)
    requires WellFormed(a) && WellFormed(b) && a.nodes == b.nodes && Children(a, ROOT) != Children(b, ROOT)
    requires x != y && LiveKids(a.nodes, ROOT) == {x, y} && x in a.nodes && y in a.nodes
    requires a.nodes[x].body.Leaf? && a.nodes[y].body.Leaf?
    requires a.nodes[x].body.text + a.nodes[y].body.text != a.nodes[y].body.text + a.nodes[x].body.text
    ensures Render(a) != Render(b)
  {
    hide Rooted, KidsIn, RenderAt, LiveKids;
    KidsInAreKids(a.nodes, a.order, ROOT);
    KidsInAreKids(b.nodes, b.order, ROOT);
    TwoListed(Children(a, ROOT), x, y);
    TwoListed(Children(b, ROOT), x, y);
    if Children(a, ROOT) == [x, y] {
      TwoLeaves(a, x, y);
      TwoLeaves(b, y, x);
    } else {
      TwoLeaves(a, y, x);
      TwoLeaves(b, x, y);
    }
  }

  lemma {:induction false} OutOfThree(s: seq<OpId>, x: OpId, y: OpId)
    requires Distinct(s) && |s| > 2
    ensures exists k :: k in Elements(s) && k != x && k != y
  {
    assert s[0] in Elements(s) && s[1] in Elements(s) && s[2] in Elements(s);
  }

  lemma {:induction false} TwoListed(s: seq<OpId>, x: OpId, y: OpId)
    requires Distinct(s) && Elements(s) == {x, y} && x != y
    ensures s == [x, y] || s == [y, x]
  {
    assert x in Elements(s) && y in Elements(s);
    var i :| 0 <= i < |s| && s[i] == x;
    var j :| 0 <= j < |s| && s[j] == y;
    assert s[0] in Elements(s) && s[1] in Elements(s);
    if |s| > 2 {
      OutOfThree(s, x, y);
      assert false;
    }
  }

  lemma {:induction false} TieShows(a: Tree, b: Tree, x: OpId, y: OpId)
    requires WellFormed(a) && WellFormed(b) && a.nodes == b.nodes
    requires x != y && x != ROOT && y != ROOT && a.order == [ROOT, x, y] && b.order == [ROOT, y, x]
    requires x in LiveKids(a.nodes, ROOT) && y in LiveKids(a.nodes, ROOT) && a.nodes[x].sort == a.nodes[y].sort
    ensures Children(a, ROOT) != Children(b, ROOT)
  {
    hide KidsIn, BehindParent, IndexOf;
    ThreeInOrder(x, y);
    ThreeInOrder(y, x);
    assert forall k :: k in LiveKids(a.nodes, ROOT) ==> k in Elements(a.order) && k in Elements(b.order);
    assert !TiesAgree(a.nodes, LiveKids(a.nodes, ROOT), a.order, b.order);
    ChildrenAgreeIff(a, b, ROOT);
  }

  lemma {:induction false} ThreeInOrder(x: OpId, y: OpId)
    requires x != y && x != ROOT && y != ROOT
    ensures x in [ROOT, x, y] && y in [ROOT, x, y] && IndexOf([ROOT, x, y], x) < IndexOf([ROOT, x, y], y)
  {
    DistinctIndex([ROOT, x, y], 1);
    DistinctIndex([ROOT, x, y], 2);
  }

  lemma {:induction false} TwoCreates(op: Op, op': Op) returns (t: Tree)
    requires op.id.counter >= 1 && op'.id.counter >= 1 && op.id != op'.id
    requires op.kind.CreateNode? && op'.kind.CreateNode? && op.kind.node == op.id && op'.kind.node == op'.id
    requires op.kind.parent == ROOT && op'.kind.parent == ROOT
    ensures t == Updated(Updated(EmptyTree(2), [op]), [op'])
    ensures t.order == [ROOT, op.id, op'.id] && WellFormed(t)
    ensures t.nodes == map[ROOT := ROOT_NODE][op.id := Node(Some(ROOT), op.kind.sort, op.id, op.kind.seed, None,
        op.id)][op'.id := Node(Some(ROOT), op'.kind.sort, op'.id, op'.kind.seed, None, op'.id)]
  {
    hide *;
    var e := EmptyTree(2);
    EmptyHolds(op, op');
    CreateArrives(e, op);
    CreateArrives(Updated(e, [op]), op');
    t := Updated(Updated(e, [op]), [op']);
  }

  lemma {:induction false} EmptyHolds(op: Op, op': Op)
    requires op.id.counter >= 1 && op'.id.counter >= 1 && op.id != op'.id
    ensures var e := EmptyTree(2);
            && WellFormed(e) && e.buffered == [] && !Has(e.frontier, op.id) && e.order == [ROOT]
            && e.nodes == map[ROOT := ROOT_NODE] && op.id != ROOT && op'.id != ROOT
            && !Has(ObservedIn(e.frontier, op.id), op'.id)
  {
    EmptyCoherent(2);
    ObservedAdds(Dots(0, {}), op.id.counter);
    hide Rooted, Coherent;
  }

  /** A create op that was not held makes its node at once. */
  lemma {:induction false} CreateArrives(t: Tree, op: Op)
    requires WellFormed(t) && t.buffered == [] && !Has(t.frontier, op.id)
    requires op.kind.CreateNode? && op.kind.node == op.id && op.id !in t.nodes && op.kind.parent in t.nodes
    ensures var r := Updated(t, [op]);
            && WellFormed(r) && r.buffered == [] && r.frontier == ObservedIn(t.frontier, op.id)
            && r.order == t.order + [op.id]
            && r.nodes == t.nodes[op.id := Node(Some(op.kind.parent), op.kind.sort, op.id, op.kind.seed, None, op.id)]
  {
    var e := if op.id.counter > t.counter then t.(counter := op.id.counter) else t;
    UpdatedOne(t, op);
    CommitOrder(e, op);
    CommitKeepsBuffer(e, op);
    hide Updated, Has, Commit;
    GrownRooted(t.nodes, t.order, op.id, Node(Some(op.kind.parent), op.kind.sort, op.id, op.kind.seed, None, op.id));
  }

  lemma {:induction false} TwoCreatesKnown(op: Op, op': Op)
    requires ValidOp(op) && ValidOp(op') && op.id != op'.id
    ensures var t := Updated(Updated(EmptyTree(2), [op]), [op']); Coherent(t) && Known(t) == {op, op'}
  {
    EmptyCoherent(2);
    assert Elements([op]) == {op} && Elements([op']) == {op'};
    assert Genuine({op}) && Genuine({op, op'});
    hide *;
    assert {} + {op} == {op} && {op} + {op'} == {op, op'};
    UpdatedCoherent(EmptyTree(2), [op]);
    UpdatedCoherent(Updated(EmptyTree(2), [op]), [op']);
  }

  // ----- diff -----

  function Lacking(log: seq<Op>, their: Frontier): seq<Op> {
    if log == [] then []
    else (if Has(their, log[0].id) then [] else [log[0]]) + Lacking(log[1..], their)
  }

  function InsertById(op: Op, s: seq<Op>): seq<Op> {
    if s == [] || !IdLess(s[0].id, op.id) then [op] + s else [s[0]] + InsertById(op, s[1..])
  }

  function SortById(s: seq<Op>): seq<Op> {
    if s == [] then [] else InsertById(s[0], SortById(s[1..]))
  }

  /** `diff`: the held ops the other frontier lacks, by id. */
  function Diff(t: Tree, their: Frontier): seq<Op> {
    SortById(Lacking(t.log, their))
  }

  predicate Ascending(s: seq<Op>) {
    forall i, j :: 0 <= i < j < |s| ==> !IdLess(s[j].id, s[i].id)
  }

  lemma {:induction false} LackingIs(log: seq<Op>, their: Frontier)
    ensures forall op :: op in Lacking(log, their) <==> op in log && !Has(their, op.id)
    decreases |log|
  {
    if log != [] {
      LackingIs(log[1..], their);
    }
  }

  lemma {:induction false} InsertByIdElements(op: Op, s: seq<Op>)
    ensures Elements(InsertById(op, s)) == Elements(s) + {op}
    decreases |s|
  {
    if s != [] && IdLess(s[0].id, op.id) {
      InsertByIdElements(op, s[1..]);
      HeadOf(s);
      var r := InsertById(op, s[1..]);
      assert ([s[0]] + r)[1..] == r;
      HeadOf([s[0]] + r);
    } else {
      assert ([op] + s)[1..] == s;
      HeadOf([op] + s);
    }
  }

  lemma {:induction false} InsertByIdIs(op: Op, s: seq<Op>)
    requires Ascending(s)
    ensures Ascending(InsertById(op, s))
    decreases |s|
  {
    if s != [] && IdLess(s[0].id, op.id) {
      InsertByIdIs(op, s[1..]);
      InsertByIdElements(op, s[1..]);
      hide InsertById;
      var r := InsertById(op, s[1..]);
      forall j | 0 <= j < |r| ensures !IdLess(r[j].id, s[0].id) {
        assert r[j] in Elements(r);
        if r[j] != op {
          var k :| 0 <= k < |s[1..]| && s[1..][k] == r[j];
          assert s[k + 1] == r[j];
        }
      }
      assert Ascending([s[0]] + r);
      InsertByIdStep(op, s);
    }
  }

  lemma {:induction false} InsertByIdStep(op: Op, s: seq<Op>)
    requires s != [] && IdLess(s[0].id, op.id)
    ensures InsertById(op, s) == [s[0]] + InsertById(op, s[1..])
  {
  }

  lemma {:induction false} SortByIdIs(s: seq<Op>)
    ensures Ascending(SortById(s)) && Elements(SortById(s)) == Elements(s)
    decreases |s|
  {
    if s != [] {
      SortByIdIs(s[1..]);
      InsertByIdIs(s[0], SortById(s[1..]));
      InsertByIdElements(s[0], SortById(s[1..]));
      HeadOf(s);
    }
  }

  /** `diff` sends exactly the held ops the other side lacks, holes included, in id order. */
  lemma {:induction false} DiffIsExact(t: Tree, their: Frontier)
    ensures forall op :: op in Diff(t, their) <==> op in t.log && !Has(their, op.id)
    ensures Ascending(Diff(t, their))
  {
    LackingIs(t.log, their);
    SortByIdIs(Lacking(t.log, their));
    forall op ensures op in Diff(t, their) <==> op in Lacking(t.log, their) {
      assert op in Elements(Diff(t, their)) <==> op in Elements(Lacking(t.log, their));
    }
  }

  /** After `b` pulls what `a` holds and it lacks, `b` has applied everything either of them
      had applied; it skipped no hole. */
  lemma {:induction false} PullCatchesUp(a: Tree, b: Tree)
    requires Coherent(a) && Coherent(b) && Genuine(Known(a) + Known(b))
    ensures var r := Updated(b, Diff(a, b.frontier));
            Coherent(r) && Known(r) == Known(b) + Elements(a.log)
            && Elements(a.log) + Elements(b.log) <= Elements(r.log)
            && Denotes(r.frontier, Ids(r.log))
  {
    hide Rooted, NodesFollow, Supported, Has, Ready, Updated;
    var d := Diff(a, b.frontier);
    DiffIsExact(a, b.frontier);
    assert Elements(d) <= Elements(a.log);
    assert Genuine(Known(b) + Elements(d)) by { hide Core; }
    UpdatedCoherent(b, d);
    var r := Updated(b, d);
    forall op | op in a.log ensures op in Known(r) {
      if op in d {
        assert op in Elements(d);
      } else {
        assert op in Known(a) && ValidOp(op);
        assert op.id in Ids(b.log);
        var o :| o in b.log && o.id == op.id;
        assert o in Known(b);
      }
    }
    AppliedEverywhere(a.log, r);
    AppliedEverywhere(b.log, r);
  }

  /** The pull yields exactly the union of what the two had applied if and only if no op
      that waited at `b` was waiting for a node that `a` had. */
  lemma {:induction false} PullIsUnionIff(a: Tree, b: Tree)
    requires Coherent(a) && Coherent(b) && Genuine(Known(a) + Known(b))
    ensures Elements(Updated(b, Diff(a, b.frontier)).log) == Elements(a.log) + Elements(b.log)
            <==> forall op :: op in b.buffered && op !in a.log ==> Needs(op) !in a.nodes
  {
    hide Coherent, Genuine, Known, Updated, Diff;
    PullCatchesUp(a, b);
    var r := Updated(b, Diff(a, b.frontier));
    forall op | op in b.buffered ensures Simple(op) { WaitsForNode(b, op); }
    if forall op :: op in b.buffered && op !in a.log ==> Needs(op) !in a.nodes {
      NothingElseWakes(a, b, r);
    }
    if op :| op in b.buffered && op !in a.log && Needs(op) in a.nodes {
      WakesUp(a, b, r, op);
    }
  }

  lemma {:induction false} NothingElseWakes(a: Tree, b: Tree, r: Tree)
    requires Coherent(a) && Coherent(b) && Coherent(r) && Known(r) == Known(b) + Elements(a.log)
    requires forall op :: op in b.buffered && op !in a.log ==> Needs(op) !in a.nodes
    ensures Elements(r.log) <= Elements(a.log) + Elements(b.log)
  {
    hide Faithful, Stuck, Clocked, Genuine;
    assert Supported(r.log) by { CoreSupported(r); }
    for i := 0 to |r.log|
      invariant forall j :: 0 <= j < i ==> r.log[j] in a.log || r.log[j] in b.log
    {
      var op := r.log[i];
      assert op in Elements(r.log) && op in Known(r);
      if Needs(op) != ROOT {
        var c :| c in r.log[..i] && c.kind.CreateNode? && c.id == Needs(op);
        CreateShows(a, c);
        CreateShows(b, c);
      } else {
        RootShows(b);
      }
      if op in b.buffered {
        WaitsForNode(b, op);
      }
    }
  }

  lemma {:induction false} CoreSupported(t: Tree)
    requires Coherent(t)
    ensures Supported(t.log)
  {
  }

  lemma {:induction false} RootShows(t: Tree)
    requires Coherent(t)
    ensures ROOT in t.nodes
  {
  }

  lemma {:induction false} CreateShows(t: Tree, c: Op)
    requires Coherent(t) && c.kind.CreateNode?
    ensures c in t.log ==> c.id in t.nodes
  {
    hide Rooted, Denotes, Supported, NodeIs, Stuck, Genuine;
    if c in t.log {
      assert HasCreate(t.log, c.id);
    }
  }

  lemma {:induction false} WakesUp(a: Tree, b: Tree, r: Tree, op: Op)
    requires Coherent(a) && Coherent(b) && Coherent(r) && Known(r) == Known(b) + Elements(a.log)
    requires Elements(a.log) <= Elements(r.log)
    requires op in b.buffered && op !in a.log && Simple(op) && Needs(op) in a.nodes
    ensures op in Elements(r.log) && op !in Elements(a.log) + Elements(b.log)
  {
    hide Rooted, Denotes, Has, Ready, NodeIs, Supported;
    assert op in Known(r);
    assert Needs(op) == ROOT || HasCreate(r.log, Needs(op)) by {
      if Needs(op) != ROOT {
        var c :| c in a.log && c.kind.CreateNode? && c.id == Needs(op);
        assert c in Elements(a.log);
      }
    }
    AppliedIsClosed(r, op);
    WaitsUnlogged(b, op);
  }

  lemma {:induction false} WaitsForNode(b: Tree, op: Op)
    requires Coherent(b) && op in b.buffered
    ensures Simple(op) && Needs(op) !in b.nodes
  {
    hide Faithful;
    assert op in Known(b);
    assert !Ready(b, op);
  }

  lemma {:induction false} WaitsUnlogged(b: Tree, op: Op)
    requires Coherent(b) && op in b.buffered
    ensures op !in b.log
  {
    hide Rooted, NodesFollow, Supported, Has;
    assert op in b.log ==> op.id in Ids(b.log);
    assert op.id in Ids(b.log) ==> Has(b.frontier, op.id);
  }

  // ----- a pull that applies more -----

  /** A deletion that reached its replica before the creation. */
  const BURIAL := Op(OpId(2, 3), Tombstone(FIRST.id))

  /** The pull that brings the creation also applies the waiting deletion, which neither side
      had applied. */
  lemma {:induction false} PullAppliesWaiting()
    ensures var a, b := Updated(EmptyTree(2), [FIRST]), Updated(EmptyTree(4), [BURIAL]);
            BURIAL !in a.log && BURIAL !in b.log && BURIAL in Updated(b, Diff(a, b.frontier)).log
  {
    hide Core, Stuck, Updated, Diff;
    var a, b := Updated(EmptyTree(2), [FIRST]), Updated(EmptyTree(4), [BURIAL]);
    EmptyCoherent(2);
    EmptyCoherent(4);
    assert Elements([FIRST]) == {FIRST} && Elements([BURIAL]) == {BURIAL};
    UpdatedCoherent(EmptyTree(2), [FIRST]);
    UpdatedCoherent(EmptyTree(4), [BURIAL]);
    assert Known(a) == {FIRST} && Known(b) == {BURIAL};
    assert BURIAL in Known(b) && FIRST in Known(a);
    AppliedIsClosed(a, FIRST);
    CreateShows(a, FIRST);
    LoneBurialWaits(b);
    var r := Updated(b, Diff(a, b.frontier));
    PullCatchesUp(a, b);
    assert BURIAL !in a.log by { assert BURIAL in a.log ==> BURIAL in Known(a); }
    WakesUp(a, b, r, BURIAL);
  }

  lemma {:induction false} LoneBurialWaits(b: Tree)
    requires Coherent(b) && Known(b) == {BURIAL}
    ensures BURIAL in b.buffered && BURIAL !in b.log
  {
    hide Coherent, Supported;
    assert BURIAL in Known(b);
    CoreSupported(b);
    assert forall op :: op in b.log ==> op in Known(b);
    assert !HasCreate(b.log, FIRST.id);
    if BURIAL in b.log {
      CreateBefore(b.log, BURIAL);
      assert false;
    }
  }

  lemma {:induction false} CreateBefore(log: seq<Op>, op: Op)
    requires Supported(log) && op in log
    ensures Needs(op) == ROOT || HasCreate(log, Needs(op))
  {
    var i :| 0 <= i < |log| && log[i] == op;
    if Needs(op) != ROOT {
      var c :| c in log[..i] && c.kind.CreateNode? && c.id == Needs(op);
      assert c in log;
    }
  }
}
