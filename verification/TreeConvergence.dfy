/** Convergence of the lossless tree CRDT under create, tombstone and reorder ops: what a
    replica holds is a function of the set of ops it has received. */
module TreeConvergence {
  import opened Wrappers
  import opened Sequences
  import opened FractionalKeys
  import opened VersionFrontier
  import opened TreeState

  /** The op kinds whose effect does not depend on the text at the time of delivery. */
  predicate Simple(op: Op) {
    op.kind.CreateNode? || op.kind.Tombstone? || op.kind.Reorder?
  }

  /** A create op names the node after itself; counters start at one. */
  predicate ValidOp(op: Op) {
    op.id.counter >= 1 && Simple(op) && (op.kind.CreateNode? ==> op.kind.node == op.id)
  }

  /** An id stands for one op. */
  ghost predicate Genuine(ops: set<Op>) {
    && (forall op :: op in ops ==> ValidOp(op))
    && (forall a, b :: a in ops && b in ops && a.id == b.id ==> a == b)
  }

  /** The node an op needs to find. */
  function Needs(op: Op): OpId
    requires Simple(op)
  {
    match op.kind
    case CreateNode(_, parent, _, _) => parent
    case Tombstone(target) => target
    case Reorder(target, _) => target
  }

  function Ids(ops: seq<Op>): set<OpId> {
    set op | op in ops :: op.id
  }

  /** Everything the replica has received, applied or waiting. */
  function Known(t: Tree): set<Op> {
    Elements(t.log) + Elements(t.buffered)
  }

  predicate Reorders(op: Op, n: OpId) {
    op.kind.Reorder? && op.kind.target == n
  }

  predicate Buries(op: Op, n: OpId) {
    op.kind.Tombstone? && op.kind.target == n
  }

  /** The sort of `n` is that of the greatest op among its creation and its reorders. */
  ghost predicate SortIs(n: OpId, base: OpId, baseSort: SortKey, ops: set<Op>, stamp: OpId, sort: SortKey) {
    && ((stamp == base && sort == baseSort)
        || exists r :: r in ops && Reorders(r, n) && r.id == stamp && r.kind.newSort == sort && IdLess(base, stamp))
    && forall r :: r in ops && Reorders(r, n) ==> !IdLess(stamp, r.id)
  }

  /** The tombstone of `n` is the least one that was issued. */
  ghost predicate TombIs(n: OpId, ops: set<Op>, tomb: Option<OpId>) {
    && (tomb.None? ==> forall r :: r in ops ==> !Buries(r, n))
    && (tomb.Some? ==> (exists r :: r in ops && Buries(r, n) && r.id == tomb.value)
                       && forall r :: r in ops && Buries(r, n) ==> !IdLess(r.id, tomb.value))
  }

  ghost predicate CreatedBy(n: OpId, rec: Node, ops: set<Op>, c: Op) {
    && c in ops && c.id == n && c.kind.CreateNode?
    && rec.parent == Some(c.kind.parent) && rec.body == c.kind.seed && rec.textHead == n
    && SortIs(n, n, c.kind.sort, ops, rec.stamp, rec.sort)
  }

  /** The record of `n` as a function of the set of applied ops. */
  ghost predicate NodeIs(n: OpId, rec: Node, ops: set<Op>) {
    && TombIs(n, ops, rec.tomb)
    && if n == ROOT then
         rec.parent == None && rec.body == ROOT_NODE.body && rec.textHead == ROOT
         && SortIs(ROOT, ROOT, ROOT_NODE.sort, ops, rec.stamp, rec.sort)
       else exists c :: CreatedBy(n, rec, ops, c)
  }

  ghost predicate HasCreate(ops: seq<Op>, n: OpId) {
    exists c :: c in ops && c.kind.CreateNode? && c.id == n
  }

  /** Every applied op found the node it needs already created. */
  ghost predicate Supported(log: seq<Op>) {
    forall i :: 0 <= i < |log| ==> ValidOp(log[i]) && (Needs(log[i]) == ROOT || HasCreate(log[..i], Needs(log[i])))
  }

  /** The records are the function of the log that `NodeIs` describes. */
  ghost predicate NodesFollow(nodes: map<OpId, Node>, log: seq<Op>) {
    && (forall n :: n in nodes <==> n == ROOT || HasCreate(log, n))
    && (forall n :: n in nodes ==> NodeIs(n, nodes[n], Elements(log)))
  }

  /** The records and the frontier agree with the log. */
  ghost predicate Faithful(nodes: map<OpId, Node>, order: seq<OpId>, frontier: Frontier, log: seq<Op>) {
    Rooted(nodes, order) && Denotes(frontier, Ids(log)) && NodesFollow(nodes, log) && Supported(log)
  }

  /** The clock is past every op received. */
  ghost predicate Clocked(t: Tree) {
    forall op :: op in Known(t) ==> op.id.counter <= t.counter
  }

  ghost predicate Core(t: Tree) {
    Faithful(t.nodes, t.order, t.frontier, t.log) && Clocked(t)
  }

  /** Nothing that waits could be applied. */
  ghost predicate Stuck(t: Tree) {
    forall op :: op in t.buffered ==> !Has(t.frontier, op.id) && !Ready(t, op)
  }

  ghost predicate Coherent(t: Tree) {
    Core(t) && Stuck(t) && Genuine(Known(t))
  }

  lemma {:induction false} EmptyCoherent(peer: nat)
    ensures Coherent(EmptyTree(peer)) && Known(EmptyTree(peer)) == {}
  {
    var t := EmptyTree(peer);
    assert IndexOf(t.order, ROOT) == 0;
    assert Ids(t.log) == {};
    assert Peers({}) == {};
  }

  // ----- one applied op -----

  lemma {:induction false} IdsGrow(ops: seq<Op>, op: Op)
    ensures Ids(ops + [op]) == Ids(ops) + {op.id}
    ensures Elements(ops + [op]) == Elements(ops) + {op}
  {
    forall id ensures id in Ids(ops + [op]) <==> id in Ids(ops) + {op.id} {
      if id in Ids(ops) { var o :| o in ops && o.id == id; assert o in ops + [op]; }
      if id == op.id { assert op in ops + [op]; }
    }
  }

  /** An op leaves every node alone that it neither targets nor creates. */
  lemma {:induction false} NodeIsFrame(n: OpId, rec: Node, ops: set<Op>, op: Op)
    requires NodeIs(n, rec, ops) && !Reorders(op, n) && !Buries(op, n)
    ensures NodeIs(n, rec, ops + {op})
  {
    SortFrame(n, ROOT, ROOT_NODE.sort, ops, rec.stamp, rec.sort, op);
    if n != ROOT {
      var c :| CreatedBy(n, rec, ops, c);
      SortFrame(n, n, c.kind.sort, ops, rec.stamp, rec.sort, op);
      assert CreatedBy(n, rec, ops + {op}, c);
    }
  }

  lemma {:induction false} SortFrame(n: OpId, base: OpId, baseSort: SortKey, ops: set<Op>, stamp: OpId, sort: SortKey,
      op: Op)
    requires !Reorders(op, n)
    ensures SortIs(n, base, baseSort, ops, stamp, sort) ==> SortIs(n, base, baseSort, ops + {op}, stamp, sort)
  {
    if SortIs(n, base, baseSort, ops, stamp, sort) && !(stamp == base && sort == baseSort) {
      var r :| r in ops && Reorders(r, n) && r.id == stamp && r.kind.newSort == sort && IdLess(base, stamp);
      assert r in ops + {op};
    }
  }

  lemma {:induction false} BuriedNode(n: OpId, rec: Node, ops: set<Op>, op: Op)
    requires NodeIs(n, rec, ops) && Buries(op, n)
    ensures NodeIs(n, Entombed(rec, op.id), ops + {op})
  {
    var rec', ops' := Entombed(rec, op.id), ops + {op};
    SortFrame(n, ROOT, ROOT_NODE.sort, ops, rec.stamp, rec.sort, op);
    if n != ROOT {
      var c :| CreatedBy(n, rec, ops, c);
      SortFrame(n, n, c.kind.sort, ops, rec.stamp, rec.sort, op);
      assert CreatedBy(n, rec', ops', c);
    }
    if rec.tomb.Some? {
      var r :| r in ops && Buries(r, n) && r.id == rec.tomb.value;
      assert r in ops' && op in ops';
    } else {
      assert op in ops';
    }
    assert TombIs(n, ops', rec'.tomb);
  }

  lemma {:induction false} SortAdvances(n: OpId, base: OpId, baseSort: SortKey, ops: set<Op>, stamp: OpId,
      sort: SortKey, op: Op)
    requires SortIs(n, base, baseSort, ops, stamp, sort) && Reorders(op, n)
    ensures IdLess(stamp, op.id) ==> SortIs(n, base, baseSort, ops + {op}, op.id, op.kind.newSort)
    ensures !IdLess(stamp, op.id) ==> SortIs(n, base, baseSort, ops + {op}, stamp, sort)
  {
    assert op in ops + {op};
    if !(stamp == base && sort == baseSort) {
      var r :| r in ops && Reorders(r, n) && r.id == stamp && r.kind.newSort == sort && IdLess(base, stamp);
      assert r in ops + {op};
    }
  }

  lemma {:induction false} ReorderedNode(n: OpId, rec: Node, ops: set<Op>, op: Op)
    requires NodeIs(n, rec, ops) && Reorders(op, n)
    ensures IdLess(rec.stamp, op.id) ==> NodeIs(n, rec.(sort := op.kind.newSort, stamp := op.id), ops + {op})
    ensures !IdLess(rec.stamp, op.id) ==> NodeIs(n, rec, ops + {op})
  {
    var rec' := if IdLess(rec.stamp, op.id) then rec.(sort := op.kind.newSort, stamp := op.id) else rec;
    if n == ROOT {
      SortAdvances(n, ROOT, ROOT_NODE.sort, ops, rec.stamp, rec.sort, op);
    } else {
      var c :| CreatedBy(n, rec, ops, c);
      SortAdvances(n, n, c.kind.sort, ops, rec.stamp, rec.sort, op);
      assert CreatedBy(n, rec', ops + {op}, c);
    }
    assert TombIs(n, ops + {op}, rec.tomb);
  }

  lemma {:induction false} NewNode(ops: set<Op>, op: Op)
    requires op.kind.CreateNode? && op.kind.node == op.id && op.id != ROOT
    requires forall r :: r in ops ==> Simple(r) && Needs(r) != op.id
    ensures NodeIs(op.id, Node(Some(op.kind.parent), op.kind.sort, op.id, op.kind.seed, None, op.id), ops + {op})
  {
    var rec := Node(Some(op.kind.parent), op.kind.sort, op.id, op.kind.seed, None, op.id);
    forall r | r in ops + {op} ensures !Reorders(r, op.id) && !Buries(r, op.id) {
    }
    assert CreatedBy(op.id, rec, ops + {op}, op);
  }

  /** Inserting a node behind its parent keeps the tree rooted. */
  lemma {:induction false} GrownRooted(nodes: map<OpId, Node>, order: seq<OpId>, n: OpId, rec: Node)
    requires Rooted(nodes, order) && n !in nodes
    requires rec.parent.Some? && rec.parent.value in nodes
    ensures Rooted(nodes[n := rec], order + [n])
  {
    var nodes', order' := nodes[n := rec], order + [n];
    assert n !in Elements(order);
    assert Elements(order') == Elements(order) + {n};
    assert order'[|order|] == n;
    assert Distinct(order');
    DistinctIndex(order', |order|);
    forall m | m in nodes' && m != ROOT
      ensures BehindParent(nodes', order', m)
    {
      assert rec.parent.value in Elements(order);
      if m == n {
        IndexInFront(order, [n], rec.parent.value);
      } else {
        assert BehindParent(nodes, order, m);
        IndexInFront(order, [n], nodes[m].parent.value);
        IndexInFront(order, [n], m);
      }
    }
  }

  /** So does changing a record without moving it to another parent. */
  lemma {:induction false} EditedRooted(nodes: map<OpId, Node>, order: seq<OpId>, n: OpId, rec: Node)
    requires Rooted(nodes, order) && n in nodes && rec.parent == nodes[n].parent
    requires rec.body.Element? <==> nodes[n].body.Element?
    ensures Rooted(nodes[n := rec], order)
  {
    var nodes' := nodes[n := rec];
    assert nodes'.Keys == nodes.Keys;
    forall m | m in nodes' && m != ROOT
      ensures BehindParent(nodes', order, m)
    {
      assert BehindParent(nodes, order, m);
    }
  }

  lemma {:induction false} HasCreateGrows(ops: seq<Op>, op: Op, n: OpId)
    ensures HasCreate(ops + [op], n) <==> HasCreate(ops, n) || (op.kind.CreateNode? && op.id == n)
  {
    if HasCreate(ops, n) {
      var c :| c in ops && c.kind.CreateNode? && c.id == n;
      assert c in ops + [op];
    }
    if op.kind.CreateNode? && op.id == n {
      assert op in ops + [op];
    }
  }

  /** Applied ops need nodes that exist. */
  lemma {:induction false} NeedsExist(nodes: map<OpId, Node>, log: seq<Op>, op: Op)
    requires NodesFollow(nodes, log) && Supported(log) && op in log
    ensures Simple(op) && Needs(op) in nodes
  {
    var i :| 0 <= i < |log| && log[i] == op;
    if Needs(op) != ROOT {
      var c :| c in log[..i] && c.kind.CreateNode? && c.id == Needs(op);
      assert c in log;
    }
  }

  lemma {:induction false} IsNew(nodes: map<OpId, Node>, log: seq<Op>, id: OpId)
    requires NodesFollow(nodes, log) && id !in Ids(log) && id != ROOT
    ensures id !in nodes
  {
    assert forall c :: c in log ==> c.id in Ids(log);
  }

  /** The records after one simple op are again the ones the log describes. */
  lemma {:induction false} AppliedNodes(t: Tree, op: Op)
    requires Rooted(t.nodes, t.order) && NodesFollow(t.nodes, t.log) && Supported(t.log)
    requires ValidOp(op) && Needs(op) in t.nodes && op.id !in Ids(t.log)
    ensures Rooted(Applied(t, op).nodes, Applied(t, op).order)
    ensures NodesFollow(Applied(t, op).nodes, t.log + [op])
    ensures Applied(t, op) == t.(nodes := Applied(t, op).nodes, order := Applied(t, op).order)
  {
    hide NodeIs, Denotes, Rooted, Supported, HasCreate, Ids;
    var a, ops := Applied(t, op), Elements(t.log);
    IdsGrow(t.log, op);
    AppliedRooted(t, op);
    AppliedKeys(t, op);
    forall n | n in a.nodes ensures NodeIs(n, a.nodes[n], ops + {op}) {
      AppliedNode(t, op, n);
    }
  }

  lemma {:induction false} AppliedKeys(t: Tree, op: Op)
    requires NodesFollow(t.nodes, t.log) && ValidOp(op) && Needs(op) in t.nodes
    ensures forall n :: n in Applied(t, op).nodes <==> n == ROOT || HasCreate(t.log + [op], n)
  {
    hide NodeIs, HasCreate;
    forall n ensures n in Applied(t, op).nodes <==> n == ROOT || HasCreate(t.log + [op], n) {
      HasCreateGrows(t.log, op, n);
    }
  }

  lemma {:induction false} AppliedRooted(t: Tree, op: Op)
    requires Rooted(t.nodes, t.order) && NodesFollow(t.nodes, t.log)
    requires ValidOp(op) && Needs(op) in t.nodes && op.id !in Ids(t.log)
    ensures Rooted(Applied(t, op).nodes, Applied(t, op).order)
  {
    hide Rooted, NodesFollow, Ids;
    if op.kind.CreateNode? {
      IsNew(t.nodes, t.log, op.id);
      GrownRooted(t.nodes, t.order, op.id, Node(Some(op.kind.parent), op.kind.sort, op.id, op.kind.seed, None, op.id));
    } else {
      var a, n := Applied(t, op), Needs(op);
      assert a == t || (a.order == t.order && a.nodes == t.nodes[n := a.nodes[n]]);
      EditedRooted(t.nodes, t.order, n, a.nodes[n]);
    }
  }

  lemma {:induction false} AppliedNode(t: Tree, op: Op, n: OpId)
    requires NodesFollow(t.nodes, t.log) && Supported(t.log)
    requires ValidOp(op) && Needs(op) in t.nodes && op.id !in Ids(t.log)
    requires n in Applied(t, op).nodes
    ensures NodeIs(n, Applied(t, op).nodes[n], Elements(t.log) + {op})
  {
    hide NodeIs, HasCreate, Supported, Ids;
    if n in t.nodes {
      if Buries(op, n) {
        BuriedNode(n, t.nodes[n], Elements(t.log), op);
      } else if Reorders(op, n) {
        ReorderedNode(n, t.nodes[n], Elements(t.log), op);
      } else {
        NodeIsFrame(n, t.nodes[n], Elements(t.log), op);
      }
    } else {
      forall r | r in Elements(t.log) ensures Simple(r) && Needs(r) != op.id {
        NeedsExist(t.nodes, t.log, r);
      }
      NewNode(Elements(t.log), op);
    }
  }

  lemma {:induction false} SupportedGrows(log: seq<Op>, op: Op)
    requires Supported(log) && ValidOp(op) && (Needs(op) == ROOT || HasCreate(log, Needs(op)))
    ensures Supported(log + [op])
  {
    var log' := log + [op];
    forall i | 0 <= i < |log'|
      ensures ValidOp(log'[i]) && (Needs(log'[i]) == ROOT || HasCreate(log'[..i], Needs(log'[i])))
    {
      if i < |log| {
        assert log'[..i] == log[..i];
      } else {
        assert log'[..i] == log;
      }
    }
  }

  lemma {:induction false} NeedsCreated(nodes: map<OpId, Node>, log: seq<Op>, n: OpId)
    requires NodesFollow(nodes, log) && n in nodes
    ensures n == ROOT || HasCreate(log, n)
  {
  }

  lemma {:induction false} ValidCounts(op: Op)
    requires ValidOp(op)
    ensures op.id.counter >= 1 && Simple(op)
  {
  }

  /** Committing a ready op keeps everything in agreement with the log. */
  lemma {:induction false} CommitCore(t: Tree, op: Op)
    requires Core(t) && ValidOp(op) && Needs(op) in t.nodes && op.id !in Ids(t.log)
    requires op.id.counter <= t.counter
    ensures Core(Commit(t, op)) && Elements(Commit(t, op).log) == Elements(t.log) + {op}
    ensures Commit(t, op).buffered == t.buffered && Commit(t, op).counter == t.counter
  {
    hide Rooted, NodesFollow, Denotes, Supported, HasCreate, Ids, Applied, ObservedIn, Needs, ValidOp;
    ValidCounts(op);
    NeedsCreated(t.nodes, t.log, Needs(op));
    AppliedNodes(t, op);
    IdsGrow(t.log, op);
    ObserveDenotes(t.frontier, Ids(t.log), op.id);
    SupportedGrows(t.log, op);
  }

  // ----- whole updates -----

  /** All ops that may occur, looked up by id. */
  type Ledger = map<OpId, Op>

  ghost predicate Listed(all: Ledger, ops: set<Op>) {
    forall op :: op in ops ==> op.id in all && all[op.id] == op && ValidOp(op)
  }

  lemma {:induction false} LedgerOf(ops: set<Op>) returns (all: Ledger)
    requires Genuine(ops)
    ensures Listed(all, ops)
  {
    var ids := set op | op in ops :: op.id;
    all := map id | id in ids :: var o :| o in ops && o.id == id; o;
  }

  /** A held id means that its op is in the log. */
  lemma {:induction false} HeldIsLogged(frontier: Frontier, log: seq<Op>, op: Op, all: Ledger)
    requires Denotes(frontier, Ids(log)) && Listed(all, Elements(log)) && Listed(all, {op})
    ensures Has(frontier, op.id) <==> op in log
    ensures op in log <==> op.id in Ids(log)
  {
    assert op in {op};
    if op.id in Ids(log) {
      var o :| o in log && o.id == op.id;
      assert o in Elements(log);
    }
  }

  lemma {:induction false} HeadOf(ops: seq<Op>)
    requires ops != []
    ensures Elements(ops) == {ops[0]} + Elements(ops[1..])
  {
    assert ops == [ops[0]] + ops[1..];
  }

  lemma {:induction false} SweepCore(t: Tree, pending: seq<Op>, all: Ledger)
    requires Core(t) && Listed(all, Known(t)) && Listed(all, Elements(pending))
    requires forall op :: op in pending ==> op.id.counter <= t.counter
    ensures Core(Sweep(t, pending).0)
    ensures Known(Sweep(t, pending).0) == Known(t) + Elements(pending)
    ensures Sweep(t, pending).0.counter == t.counter
    decreases |pending|
  {
    hide Rooted, NodesFollow, Denotes, Supported, HasCreate, Ids, Commit, Has, ValidOp;
    if pending != [] {
      var op := pending[0];
      HeadOf(pending);
      assert Listed(all, {op}) && Listed(all, Elements(pending[1..]));
      assert ValidOp(op) && Simple(op) by { SimpleOp(all, op); }
      HeldIsLogged(t.frontier, t.log, op, all);
      if Has(t.frontier, op.id) {
        SweepCore(t, pending[1..], all);
      } else if Ready(t, op) {
        CommitCore(t, op);
        assert Known(Commit(t, op)) == Known(t) + {op};
        SweepCore(Commit(t, op), pending[1..], all);
      } else {
        IdsGrow(t.buffered, op);
        SweepCore(t.(buffered := t.buffered + [op]), pending[1..], all);
      }
    }
  }

  lemma {:induction false} SimpleOp(all: Ledger, op: Op)
    requires Listed(all, {op})
    ensures ValidOp(op) && Simple(op)
  {
    assert op in {op};
  }

  /** A sweep without progress leaves everything as it was, and everything waiting. */
  lemma {:induction false} SweepIdle(t: Tree, pending: seq<Op>)
    requires !Sweep(t, pending).1
    requires forall op :: op in t.buffered ==> !Has(t.frontier, op.id) && !Ready(t, op)
    ensures Sweep(t, pending).0 == t.(buffered := Sweep(t, pending).0.buffered)
    ensures Stuck(Sweep(t, pending).0)
    decreases |pending|
  {
    if pending != [] {
      var op := pending[0];
      if Has(t.frontier, op.id) {
        SweepIdle(t, pending[1..]);
      } else {
        SweepIdle(t.(buffered := t.buffered + [op]), pending[1..]);
      }
    }
  }

  lemma {:induction false} DrainedCore(t: Tree, all: Ledger)
    requires Core(t) && Listed(all, Known(t))
    ensures Core(Drained(t)) && Stuck(Drained(t)) && Known(Drained(t)) == Known(t)
    ensures Drained(t).counter == t.counter
    decreases |t.buffered|
  {
    hide Faithful, Listed, Has, Ready, Sweep;
    var start := t.(buffered := []);
    assert Listed(all, Known(start)) && Listed(all, Elements(t.buffered)) by { ListedParts(t, all); }
    SweepCore(start, t.buffered, all);
    var r := Sweep(start, t.buffered);
    assert Known(r.0) == Known(t);
    if r.1 {
      DrainedCore(r.0, all);
    } else {
      SweepIdle(start, t.buffered);
    }
  }

  lemma {:induction false} ListedParts(t: Tree, all: Ledger)
    requires Listed(all, Known(t))
    ensures Listed(all, Elements(t.log)) && Listed(all, Elements(t.buffered))
    ensures Listed(all, Known(t.(buffered := [])))
  {
  }

  lemma {:induction false} EnqueuedCore(t: Tree, ops: seq<Op>, all: Ledger)
    requires Core(t) && Listed(all, Known(t)) && Listed(all, Elements(ops))
    ensures Core(Enqueued(t, ops)) && Known(Enqueued(t, ops)) == Known(t) + Elements(ops)
    decreases |ops|
  {
    hide Rooted, NodesFollow, Denotes, Supported, Ids, Has, ValidOp;
    if ops != [] {
      var op := ops[0];
      HeadOf(ops);
      HeldIsLogged(t.frontier, t.log, op, all);
      IdsGrow(t.buffered, op);
      var clocked := if op.id.counter > t.counter then t.(counter := op.id.counter) else t;
      var next := if Has(t.frontier, op.id) then clocked else clocked.(buffered := clocked.buffered + [op]);
      EnqueuedCore(next, ops[1..], all);
    }
  }

  /** `apply_update` keeps a replica coherent and adds exactly the delivered ops to what it
      knows, whatever the batch holds and in whatever order. */
  lemma {:induction false} UpdatedCoherent(t: Tree, ops: seq<Op>)
    requires Coherent(t) && Genuine(Known(t) + Elements(ops))
    ensures Coherent(Updated(t, ops)) && Known(Updated(t, ops)) == Known(t) + Elements(ops)
  {
    hide Core, Stuck, Drained, Enqueued;
    var all := LedgerOf(Known(t) + Elements(ops));
    assert Listed(all, Known(t)) && Listed(all, Elements(ops));
    EnqueuedCore(t, ops, all);
    DrainedCore(Enqueued(t, ops), all);
  }

  /** A local op is applied at once; it keeps the replica coherent unless an op already
      waits for the very id it is given. */
  lemma {:induction false} LocalCoherent(t: Tree, kind: OpKind)
    requires Coherent(t) && ValidOp(Op(NextId(t), kind)) && Needs(Op(NextId(t), kind)) in t.nodes
    requires forall op :: op in t.buffered ==> Simple(op) && Needs(op) != NextId(t)
    ensures Coherent(CommitLocal(t, kind))
    ensures Known(CommitLocal(t, kind)) == Known(t) + {Op(NextId(t), kind)}
  {
    hide Faithful, Stuck, Genuine, Commit, Ready, Has, Needs, ValidOp;
    LocalCore(t, kind);
    LocalGenuine(t, kind);
    LocalStuck(t, kind);
  }

  lemma {:induction false} LocalCore(t: Tree, kind: OpKind)
    requires Core(t) && ValidOp(Op(NextId(t), kind)) && Needs(Op(NextId(t), kind)) in t.nodes
    ensures Core(CommitLocal(t, kind)) && CommitLocal(t, kind).buffered == t.buffered
    ensures Known(CommitLocal(t, kind)) == Known(t) + {Op(NextId(t), kind)}
  {
    hide Faithful, Commit, Needs, ValidOp;
    NextIsNew(t);
    CommitCore(t.(counter := t.counter + 1), Op(NextId(t), kind));
  }

  lemma {:induction false} LocalGenuine(t: Tree, kind: OpKind)
    requires Clocked(t) && Genuine(Known(t)) && ValidOp(Op(NextId(t), kind))
    ensures Genuine(Known(t) + {Op(NextId(t), kind)})
  {
    NextIsNew(t);
  }

  lemma {:induction false} LocalStuck(t: Tree, kind: OpKind)
    requires Core(t) && Stuck(t) && Genuine(Known(t))
    requires ValidOp(Op(NextId(t), kind)) && Needs(Op(NextId(t), kind)) in t.nodes
    requires forall op :: op in t.buffered ==> Simple(op) && Needs(op) != NextId(t)
    requires CommitLocal(t, kind).buffered == t.buffered
    ensures Stuck(CommitLocal(t, kind))
  {
    hide Core, Commit, Has, Ready;
    forall w | w in t.buffered
      ensures !Has(CommitLocal(t, kind).frontier, w.id) && !Ready(CommitLocal(t, kind), w)
    {
      assert w in Known(t);
      StaysStuck(t, Op(NextId(t), kind), w);
    }
  }

  lemma {:induction false} NextIsNew(t: Tree)
    requires Clocked(t)
    ensures NextId(t) !in Ids(t.log) && forall o :: o in Known(t) ==> o.id != NextId(t)
  {
    forall o | o in t.log ensures o.id != NextId(t) { assert o in Known(t); }
  }

  lemma {:induction false} StaysStuck(t: Tree, op: Op, w: Op)
    requires Core(t) && ValidOp(op) && op.id == NextId(t) && Needs(op) in t.nodes
    requires w in t.buffered && ValidOp(w) && Needs(w) != op.id
    requires !Has(t.frontier, w.id) && !Ready(t, w)
    ensures !Has(Commit(t.(counter := t.counter + 1), op).frontier, w.id)
        && !Ready(Commit(t.(counter := t.counter + 1), op), w)
  {
    hide Rooted, NodesFollow, Supported, ObservedIn, Has;
    ObserveDenotes(t.frontier, Ids(t.log), op.id);
    assert w in Known(t);
    assert w.id != op.id;
    assert Has(ObservedIn(t.frontier, op.id), w.id) <==> w.id in Ids(t.log) + {op.id};
  }
}
