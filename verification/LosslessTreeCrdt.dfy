/** The tree replica itself: records on the heap, updated in place, with an index from
    parents to their children. Every method is tied to the functions of `TreeState`. */
module LosslessTreeCrdts {
  import opened Wrappers
  import opened Sequences
  import opened FractionalKeys
  import opened VersionFrontier
  import opened TreeState
  import opened TreeConvergence
  import opened TreeAntiEntropy

  datatype TreeError = NodeNotFound | NotALeaf | BadOffset | NotAdjacent

  class NodeRecord {
    const id: OpId
    const parent: Option<OpId>
    var sort: SortKey
    var sortStamp: OpId
    var body: Body
    var tomb: Option<OpId>
    var textHead: OpId

    function Value(): Node
      reads this
    {
      Node(parent, sort, sortStamp, body, tomb, textHead)
    }

    constructor (id: OpId, parent: Option<OpId>, sort: SortKey, stamp: OpId, body: Body, textHead: OpId)
      ensures this.id == id && Value() == Node(parent, sort, stamp, body, None, textHead)
    {
      this.id, this.parent, this.sort, this.sortStamp, this.body, this.tomb, this.textHead := id, parent, sort, stamp,
          body, None, textHead;
    }
  }

  function RecordIds(rs: seq<NodeRecord>): seq<OpId> {
    seq(|rs|, i requires 0 <= i < |rs| => rs[i].id)
  }

  /** The nodes with parent `p`, dead or alive. */
  function KidIds(nodes: map<OpId, NodeRecord>, p: OpId): set<OpId> {
    set n | n in nodes && nodes[n].parent == Some(p)
  }

  /** The index is a full scan of the records by parent, in insertion order. */
  ghost predicate Indexed(nodes: map<OpId, NodeRecord>, order: seq<OpId>, index: map<OpId, seq<NodeRecord>>) {
    && (forall n :: n in nodes && nodes[n].parent.Some? ==> nodes[n].parent.value in index)
    && (forall p :: p in index ==> RecordIds(index[p]) == Restrict(order, KidIds(nodes, p)))
    && (forall p, r :: p in index && r in index[p] ==> r.id in nodes && nodes[r.id] == r)
  }

  /** Entering a new record into its parent's bucket restores the scan. */
  lemma {:induction false} IndexedGrows(nodes: map<OpId, NodeRecord>, order: seq<OpId>,
      index: map<OpId, seq<NodeRecord>>, r: NodeRecord, p: OpId)
    requires Indexed(nodes, order, index) && Elements(order) == nodes.Keys && r.id !in nodes && r.parent == Some(p)
    ensures Indexed(nodes[r.id := r], order + [r.id], index[p := (if p in index then index[p] else []) + [r]])
  {
    hide Restrict;
    var nodes', order' := nodes[r.id := r], order + [r.id];
    var bucket := if p in index then index[p] else [];
    var index' := index[p := bucket + [r]];
    assert r.id !in Elements(order);
    forall q | q in index' ensures RecordIds(index'[q]) == Restrict(order', KidIds(nodes', q)) {
      ScanGrows(nodes, order, r, q);
      if q == p {
        assert RecordIds(bucket + [r]) == RecordIds(bucket) + [r.id];
        if p !in index {
          assert Elements(order) !! KidIds(nodes, p);
          RestrictNone(order, KidIds(nodes, p));
        }
      }
    }
  }

  lemma {:induction false} ScanGrows(nodes: map<OpId, NodeRecord>, order: seq<OpId>, r: NodeRecord, q: OpId)
    requires Elements(order) == nodes.Keys && r.id !in nodes
    ensures Restrict(order + [r.id], KidIds(nodes[r.id := r], q))
            == Restrict(order, KidIds(nodes, q)) + if r.parent == Some(q) then [r.id] else []
  {
    var keep := KidIds(nodes[r.id := r], q);
    RestrictAppend(order, [r.id], keep);
    forall n | n in order ensures n in keep <==> n in KidIds(nodes, q) { assert n in Elements(order); }
    RestrictSame(order, keep, KidIds(nodes, q));
    assert r.id in keep <==> r.parent == Some(q);
    assert Restrict([r.id], keep) == if r.parent == Some(q) then [r.id] else [];
  }

  /** What a local commit guarantees without the readiness test: a new node's parent is held. */
  predicate Grounded(t: Tree, op: Op) {
    op.kind.CreateNode? ==> op.kind.parent in t.nodes
  }

  /** A grounded op leaves the tree rooted, whatever its kind. */
  lemma {:induction false} AppliedStaysRooted(t: Tree, op: Op)
    requires WellFormed(t) && Grounded(t, op)
    ensures WellFormed(Applied(t, op))
  {
    hide Rooted;
    match op.kind
    case CreateNode(node, parent, sort, seed) =>
      if node !in t.nodes {
        GrownRooted(t.nodes, t.order, node, Node(Some(parent), sort, op.id, seed, None, op.id));
      }
    case Tombstone(target) =>
      if target in t.nodes {
        EditedRooted(t.nodes, t.order, target, Entombed(t.nodes[target], op.id));
      }
    case Reorder(target, newSort) =>
      if target in t.nodes {
        EditedRooted(t.nodes, t.order, target, t.nodes[target].(sort := newSort, stamp := op.id));
      }
    case SplitLeaf(leaf, made, splitSort, atChar, _) =>
      if leaf in t.nodes && t.nodes[leaf].body.Leaf? {
        var rec := t.nodes[leaf];
        var cut := SplitAt(rec.body.text, atChar);
        var rec' := rec.(body := Leaf(rec.body.leafKind, rec.body.text[..cut]), textHead := op.id);
        EditedRooted(t.nodes, t.order, leaf, rec');
        if made !in t.nodes && rec.parent.Some? {
          ParentOf(t, leaf);
          GrownRooted(t.nodes[leaf := rec'], t.order, made,
              Node(rec.parent, splitSort, op.id, Leaf(rec.body.leafKind, rec.body.text[cut..]), None, ROOT));
        }
      }
    case MergeLeaves(left, right, _, _) =>
      if left in t.nodes && right in t.nodes && t.nodes[left].body.Leaf? && t.nodes[right].body.Leaf? {
        var rec := t.nodes[left].(body := Leaf(t.nodes[left].body.leafKind,
            t.nodes[left].body.text + t.nodes[right].body.text), textHead := op.id);
        EditedRooted(t.nodes, t.order, left, rec);
        EditedRooted(t.nodes[left := rec], t.order, right, Entombed(t.nodes[left := rec][right], op.id));
      }
  }

  /** A refused mutation changes nothing. */
  function Kept(t: Tree, r: Option<Tree>): Tree {
    if r.Some? then r.value else t
  }

  lemma {:induction false} ReadyGrounded(t: Tree, op: Op)
    requires Ready(t, op)
    ensures Grounded(t, op)
  {
  }

  lemma {:induction false} AppliedKeepsRest(t: Tree, op: Op)
    ensures Applied(t, op) == t.(nodes := Applied(t, op).nodes, order := Applied(t, op).order)
  {
  }

  lemma {:induction false} ParentOf(t: Tree, n: OpId)
    requires WellFormed(t) && n in t.nodes && t.nodes[n].parent.Some?
    ensures t.nodes[n].parent.value in t.nodes
  {
    assert BehindParent(t.nodes, t.order, n);
    assert t.nodes[n].parent.value in Elements(t.order);
  }

  class LosslessTreeCrdt {
    const peer: nat
    const frontier: TreeVersionFrontier
    var counter: nat
    var nodes: map<OpId, NodeRecord>
    var childrenByParent: map<OpId, seq<NodeRecord>>
    var log: seq<Op>
    var buffered: seq<Op>
    /** The insertion order of `nodes`. */
    ghost var order: seq<OpId>

    /** Every record object in `nodes`. */
    ghost var records: set<NodeRecord>

    /** The records, their order and the index together hold `ns`. */
    ghost predicate Stored(ns: map<OpId, Node>, inserted: seq<OpId>)
      reads this`nodes, this`order, this`records, this`childrenByParent, records
    {
      && (forall n :: n in nodes ==> nodes[n] in records && nodes[n].id == n)
      && nodes.Keys == ns.Keys && order == inserted
      && (forall n :: n in nodes ==> nodes[n].Value() == ns[n])
      && Indexed(nodes, order, childrenByParent)
      && Rooted(ns, order)
    }

    /** The replica is in state `t`. */
    ghost predicate Is(t: Tree)
      reads this, records, frontier, frontier.Ranges()
    {
      && Stored(t.nodes, t.order)
      && frontier.Valid() && frontier.Value() == t.frontier
      && peer == t.peer && counter == t.counter && log == t.log && buffered == t.buffered
    }

    constructor (peer: nat)
      ensures Is(EmptyTree(peer))
      ensures fresh(records) && fresh(frontier) && fresh(frontier.Ranges())
    {
      var root := new NodeRecord(ROOT, None, SortKey([], 0), ROOT, Element("root"), ROOT);
      this.peer, counter := peer, 0;
      nodes, childrenByParent := map[ROOT := root], map[];
      frontier := new TreeVersionFrontier();
      log, buffered := [], [];
      order, records := [ROOT], {root};
      new;
      EmptyCoherent(peer);
    }

    lemma {:induction false} StoredRooted(ns: map<OpId, Node>, inserted: seq<OpId>)
      requires Stored(ns, inserted)
      ensures Rooted(ns, inserted) && Indexed(nodes, inserted, childrenByParent)
      ensures Elements(inserted) == nodes.Keys == ns.Keys && order == inserted
    {
    }

    lemma {:induction false} StoredAt(ns: map<OpId, Node>, inserted: seq<OpId>, n: OpId)
      requires Stored(ns, inserted)
      ensures Rooted(ns, inserted) && (n in nodes <==> n in ns)
      ensures n in ns ==> nodes[n].Value() == ns[n]
      ensures n in ns && ns[n].body.Leaf? ==> ns[n].parent.Some?
    {
      hide Indexed;
      if n in ns && n != ROOT { assert BehindParent(ns, inserted, n); }
    }

    /** In every state the index of a parent lists what a scan of all records by parent
        finds, dead or alive, in insertion order. */
    lemma {:induction false} IndexIsScan(t: Tree, parent: OpId)
      requires Is(t)
      ensures RecordIds(if parent in childrenByParent then childrenByParent[parent] else [])
              == Restrict(t.order, set n | n in t.nodes && t.nodes[n].parent == Some(parent))
    {
      hide Rooted;
      var scan := set n | n in t.nodes && t.nodes[n].parent == Some(parent);
      forall n ensures n in scan <==> n in KidIds(nodes, parent) {
        if n in nodes { assert nodes[n].Value() == t.nodes[n]; }
      }
      assert scan == KidIds(nodes, parent);
      if parent !in childrenByParent {
        RestrictNone(t.order, scan);
      }
    }

    /** Store a new record and enter it into its parent's bucket. */
    method AddRecord(r: NodeRecord, ghost ns: map<OpId, Node>, ghost inserted: seq<OpId>)
      requires Stored(ns, inserted) && r.id !in ns && r.parent.Some? && Rooted(ns[r.id := r.Value()], inserted + [r.id])
      modifies this`nodes, this`childrenByParent, this`order, this`records
      ensures Stored(ns[r.id := r.Value()], inserted + [r.id]) && records == old(records) + {r}
    {
      hide Rooted, Indexed, Elements, RecordIds;
      StoredRooted(ns, inserted);
      IndexedGrows(nodes, order, childrenByParent, r, r.parent.value);
      EnterBucket(r, r.parent.value);
      nodes := nodes[r.id := r];
      order, records := order + [r.id], records + {r};
    }

    /** `_index_add`. */
    method EnterBucket(r: NodeRecord, parent: OpId)
      requires Indexed(nodes, order, childrenByParent) && r.id !in nodes
      modifies this`childrenByParent
      ensures var before := old(childrenByParent);
              childrenByParent == before[parent := (if parent in before then before[parent] else []) + [r]]
    {
      hide Indexed;
      var bucket := if parent in childrenByParent then childrenByParent[parent] else [];
      var known := Tracked(bucket, r);
      if known {
        ghost var i :| 0 <= i < |bucket| && bucket[i].id == r.id;
        BucketMember(parent, i);
        assert false;
      }
      childrenByParent := childrenByParent[parent := bucket + [r]];
    }

    lemma {:induction false} BucketMember(parent: OpId, i: nat)
      requires Indexed(nodes, order, childrenByParent) && parent in childrenByParent && i < |childrenByParent[parent]|
      ensures childrenByParent[parent][i].id in nodes
    {
      assert childrenByParent[parent][i] in childrenByParent[parent];
    }

    /** The idempotency scan of the index. */
    method Tracked(bucket: seq<NodeRecord>, r: NodeRecord) returns (known: bool)
      ensures known <==> exists i :: 0 <= i < |bucket| && bucket[i].id == r.id
    {
      for i := 0 to |bucket|
        invariant forall j :: 0 <= j < i ==> bucket[j].id != r.id
      {
        if bucket[i].id == r.id {
          return true;
        }
      }
      return false;
    }

    // ----- reading -----

    /** `_live_children`: filter the bucket, sort by key. */
    method LiveChildren(parent: OpId, ghost ns: map<OpId, Node>, ghost inserted: seq<OpId>) returns (kids: seq<OpId>)
      requires Stored(ns, inserted)
      ensures kids == KidsIn(ns, inserted, parent)
    {
      hide Stored, StableSort, Restrict;
      kids := [];
      if parent in childrenByParent {
        var live := LiveOnes(parent, childrenByParent[parent], ns, inserted);
        var sorted := SortRecords(live, ns);
        kids := RecordIds(sorted);
      } else {
        NoBucket(parent, ns, inserted);
      }
    }

    method LiveOnes(parent: OpId, bucket: seq<NodeRecord>, ghost ns: map<OpId, Node>, ghost inserted: seq<OpId>)
      returns (live: seq<NodeRecord>)
      requires Stored(ns, inserted) && parent in childrenByParent && bucket == childrenByParent[parent]
      ensures forall r :: r in live ==> r.id in ns && ns[r.id] == r.Value()
      ensures RecordIds(live) == LiveBucket(ns, inserted, parent)
    {
      hide Stored, Restrict, LiveKids;
      live := [];
      ghost var keep := LiveKids(ns, parent);
      forall i | 0 <= i < |bucket|
        ensures bucket[i].id in ns && ns[bucket[i].id] == bucket[i].Value()
        ensures Restrict([bucket[i].id], keep) == if bucket[i].tomb.None? then [bucket[i].id] else []
      {
        BucketParent(parent, i, ns, inserted);
      }
      LiveSelected(parent, ns, inserted);
      assert Restrict(RecordIds(bucket)[..0], keep) == [] by {
        RestrictNone([], keep);
        assert RecordIds(bucket)[..0] == [];
      }
      for i := 0 to |bucket|
        invariant forall r :: r in live ==> r.id in ns && ns[r.id] == r.Value()
        invariant RecordIds(live) == Restrict(RecordIds(bucket)[..i], keep)
      {
        assert RecordIds(bucket)[..i + 1] == RecordIds(bucket)[..i] + [bucket[i].id];
        RestrictAppend(RecordIds(bucket)[..i], [bucket[i].id], keep);
        if bucket[i].tomb.None? {
          assert RecordIds(live + [bucket[i]]) == RecordIds(live) + [bucket[i].id];
          live := live + [bucket[i]];
        }
      }
      assert RecordIds(bucket)[..|bucket|] == RecordIds(bucket);
    }

    lemma {:induction false} BucketParent(parent: OpId, i: nat, ns: map<OpId, Node>, inserted: seq<OpId>)
      requires Stored(ns, inserted) && parent in childrenByParent && i < |childrenByParent[parent]|
      ensures var r := childrenByParent[parent][i];
              r.id in ns && ns[r.id] == r.Value() && r.parent == Some(parent)
      ensures var r := childrenByParent[parent][i];
              Restrict([r.id], LiveKids(ns, parent)) == if r.tomb.None? then [r.id] else []
    {
      hide Rooted;
      var r := childrenByParent[parent][i];
      assert r in childrenByParent[parent];
      RestrictMembers(order, KidIds(nodes, parent));
      assert RecordIds(childrenByParent[parent])[i] == r.id;
      assert r.id in Restrict(order, KidIds(nodes, parent));
    }

    /** Selecting the live ones of a bucket selects the live children of the whole order. */
    lemma {:induction false} LiveSelected(parent: OpId, ns: map<OpId, Node>, inserted: seq<OpId>)
      requires Stored(ns, inserted) && parent in childrenByParent
      ensures Restrict(RecordIds(childrenByParent[parent]), LiveKids(ns, parent)) == LiveBucket(ns, inserted, parent)
    {
      hide Rooted;
      RestrictTwice(order, KidIds(nodes, parent), LiveKids(ns, parent));
      forall n | n in LiveKids(ns, parent) ensures n in KidIds(nodes, parent) {
        assert nodes[n].Value() == ns[n];
      }
      assert KidIds(nodes, parent) * LiveKids(ns, parent) == LiveKids(ns, parent);
    }

    lemma {:induction false} NoBucket(parent: OpId, ns: map<OpId, Node>, inserted: seq<OpId>)
      requires Stored(ns, inserted) && parent !in childrenByParent
      ensures KidsIn(ns, inserted, parent) == []
    {
      hide Rooted;
      forall n ensures n !in LiveKids(ns, parent) {
        assert n in nodes ==> nodes[n].Value() == ns[n];
      }
      RestrictNone(order, LiveKids(ns, parent));
    }

    /** A stable insertion sort by `_cmp_sort`, in the place of the library's. */
    method SortRecords(live: seq<NodeRecord>, ghost view: map<OpId, Node>) returns (sorted: seq<NodeRecord>)
      requires forall r :: r in live ==> r.id in view && view[r.id] == r.Value()
      ensures forall r :: r in sorted ==> r in live
      ensures forall y :: y in RecordIds(live) ==> y in view
      ensures RecordIds(sorted) == StableSort(view, RecordIds(live))
    {
      sorted := [];
      ghost var ids := RecordIds(live);
      forall y | y in ids ensures y in view {
        var j :| 0 <= j < |ids| && ids[j] == y;
        assert live[j] in live;
      }
      var i := |live|;
      assert ids[|live|..] == [];
      while i > 0
        invariant 0 <= i <= |live|
        invariant forall r :: r in sorted ==> r in live
        invariant RecordIds(sorted) == StableSort(view, ids[i..])
      {
        i := i - 1;
        assert live[i] in live;
        assert ids[i..][0] == live[i].id && ids[i..][1..] == ids[i + 1..];
        sorted := InsertRecord(live[i], sorted, view);
      }
      assert ids[0..] == ids;
    }

    method InsertRecord(x: NodeRecord, s: seq<NodeRecord>, ghost view: map<OpId, Node>) returns (r: seq<NodeRecord>)
      requires x.id in view && view[x.id] == x.Value()
      requires forall y :: y in s ==> y.id in view && view[y.id] == y.Value()
      ensures forall y :: y in r ==> y == x || y in s
      ensures forall y :: y in RecordIds(s) ==> y in view
      ensures RecordIds(r) == SortInsert(view, x.id, RecordIds(s))
      decreases |s|
    {
      forall y | y in RecordIds(s) ensures y in view {
        var j :| 0 <= j < |s| && RecordIds(s)[j] == y;
        assert s[j] in s;
      }
      if s == [] {
        return [x];
      }
      assert s[0] in s;
      var c := CmpSort(s[0].sort, x.sort);
      KeyTotal(s[0].sort, x.sort);
      if c < 0 {
        assert RecordIds(s)[1..] == RecordIds(s[1..]);
        var rest := InsertRecord(x, s[1..], view);
        r := [s[0]] + rest;
        assert RecordIds(r) == [s[0].id] + RecordIds(rest);
      } else {
        r := [x] + s;
        assert RecordIds(r) == [x.id] + RecordIds(s);
      }
    }

    /** `render`: a recursive walk that appends to `out`. */
    method RenderText(ghost t: Tree) returns (text: string)
      requires Is(t)
      ensures text == Render(t)
    {
      StoredRooted(t.nodes, t.order);
      text := Walk(ROOT, "", t.nodes, t.order);
    }

    method Walk(n: OpId, out: string, ghost ns: map<OpId, Node>, ghost inserted: seq<OpId>) returns (out': string)
      requires Stored(ns, inserted) && n in ns && Rooted(ns, inserted)
      ensures out' == out + RenderAt(ns, inserted, n)
      decreases Height(inserted, n), 1, 0
    {
      hide Rooted, KidsIn, Indexed;
      if nodes[n].body.Leaf? {
        return out + nodes[n].body.text;
      }
      var kids := LiveChildren(n, ns, inserted);
      KidsInAreKids(ns, inserted, n);
      out' := WalkKids(n, kids, out, ns, inserted);
    }

    method WalkKids(n: OpId, kids: seq<OpId>, out: string, ghost ns: map<OpId, Node>, ghost inserted: seq<OpId>)
        returns (out': string)
      requires Stored(ns, inserted) && n in ns && Rooted(ns, inserted) && forall k :: k in kids ==> k in LiveKids(ns, n)
      ensures out' == out + RenderKids(ns, inserted, n, kids)
      decreases Height(inserted, n), 0, |kids|
    {
      hide Stored, Rooted, KidsIn, RenderAt;
      out' := out;
      if kids != [] {
        KidIsLower(ns, inserted, n, kids[0]);
        out' := Walk(kids[0], out', ns, inserted);
        out' := WalkKids(n, kids[1..], out', ns, inserted);
      }
    }

    // ----- applying -----

    /** `_apply_op`. */
    method ApplyOp(op: Op, ghost t: Tree)
      requires Stored(t.nodes, t.order) && Grounded(t, op)
      modifies this`nodes, this`childrenByParent, this`order, this`records, records
      ensures Stored(Applied(t, op).nodes, Applied(t, op).order) && fresh(records - old(records))
    {
      hide Rooted, Indexed;
      match op.kind
      case CreateNode(node, parent, sort, seed) =>
        if node !in nodes {
          AppliedStaysRooted(t, op);
          var r := new NodeRecord(node, Some(parent), sort, op.id, seed, op.id);
          AddRecord(r, t.nodes, t.order);
        }
      case Tombstone(target) =>
        if target in nodes {
          Entomb(target, op.id, t.nodes, t.order);
        }
      case Reorder(target, newSort) =>
        if target in nodes {
          Rekey(target, newSort, op.id, t.nodes, t.order);
        }
      case SplitLeaf(_, _, _, _, _) => ApplySplit(op, t);
      case MergeLeaves(_, _, _, _) => ApplyMerge(op, t);
    }

    /** Replace the text of a held leaf. */
    method Rewrite(leaf: OpId, body: Body, id: OpId, ghost ns: map<OpId, Node>, ghost inserted: seq<OpId>)
      requires Stored(ns, inserted) && leaf in ns && ns[leaf].body.Leaf? && body.Leaf?
      modifies records
      ensures Stored(ns[leaf := ns[leaf].(body := body, textHead := id)], inserted)
    {
      StoredAt(ns, inserted, leaf);
      hide Rooted, Indexed;
      EditedRooted(ns, inserted, leaf, ns[leaf].(body := body, textHead := id));
      var rec := nodes[leaf];
      rec.body := body;
      rec.textHead := id;
    }

    /** Keep the least tombstone of a held node. */
    method Entomb(target: OpId, id: OpId, ghost ns: map<OpId, Node>, ghost inserted: seq<OpId>)
      requires Stored(ns, inserted) && target in ns
      modifies records
      ensures Stored(ns[target := Entombed(ns[target], id)], inserted)
    {
      StoredAt(ns, inserted, target);
      hide Rooted, Indexed;
      EditedRooted(ns, inserted, target, Entombed(ns[target], id));
      var rec := nodes[target];
      rec.tomb := Some(if rec.tomb.None? then id else MinId(rec.tomb.value, id));
    }

    /** Keep the sort key of the greatest stamp. */
    method Rekey(target: OpId, newSort: SortKey, id: OpId, ghost ns: map<OpId, Node>, ghost inserted: seq<OpId>)
      requires Stored(ns, inserted) && target in ns
      modifies records
      ensures var rekeyed := ns[target := ns[target].(sort := newSort, stamp := id)];
              Stored(if IdLess(ns[target].stamp, id) then rekeyed else ns, inserted)
    {
      StoredAt(ns, inserted, target);
      hide Rooted, Indexed;
      EditedRooted(ns, inserted, target, ns[target].(sort := newSort, stamp := id));
      var rec := nodes[target];
      if IdLess(rec.sortStamp, id) {
        rec.sort := newSort;
        rec.sortStamp := id;
      }
    }

    /** `_apply_split`. */
    method ApplySplit(op: Op, ghost t: Tree)
      requires Stored(t.nodes, t.order) && Grounded(t, op) && op.kind.SplitLeaf?
      modifies this`nodes, this`childrenByParent, this`order, this`records, records
      ensures Stored(Applied(t, op).nodes, Applied(t, op).order) && fresh(records - old(records))
    {
      hide Rooted, Indexed;
      AppliedStaysRooted(t, op);
      if op.kind.leaf !in nodes {
        return;
      }
      var rec := nodes[op.kind.leaf];
      if rec.body.Element? {
        return;
      }
      var kind, text := rec.body.leafKind, rec.body.text;
      var cut := SplitAt(text, op.kind.atChar);
      rec.body := Leaf(kind, text[..cut]);
      rec.textHead := op.id;
      ghost var edited := t.nodes[op.kind.leaf := rec.Value()];
      assert Stored(edited, t.order) by { EditedRooted(t.nodes, t.order, op.kind.leaf, rec.Value()); }
      if op.kind.made !in nodes && rec.parent.Some? {
        var r := new NodeRecord(op.kind.made, rec.parent, op.kind.splitSort, op.id, Leaf(kind, text[cut..]), ROOT);
        AddRecord(r, edited, t.order);
      }
    }

    /** What a merge does to the records. */
    static lemma {:induction false} AppliedMerge(t: Tree, op: Op)
      requires op.kind.MergeLeaves?
      ensures var left, right := op.kind.left, op.kind.right;
              Applied(t, op).nodes
                  == if left !in t.nodes || right !in t.nodes || !t.nodes[left].body.Leaf? || !t.nodes[right].body.Leaf?
                     then t.nodes
                     else
                       var joined := Leaf(t.nodes[left].body.leafKind,
                           t.nodes[left].body.text + t.nodes[right].body.text);
                       var merged := t.nodes[left := t.nodes[left].(body := joined, textHead := op.id)];
                       merged[right := Entombed(merged[right], op.id)]
    {
    }

    /** `_apply_merge`. */
    method ApplyMerge(op: Op, ghost t: Tree)
      requires Stored(t.nodes, t.order) && op.kind.MergeLeaves?
      modifies records
      ensures Stored(Applied(t, op).nodes, t.order)
    {
      StoredAt(t.nodes, t.order, op.kind.left);
      StoredAt(t.nodes, t.order, op.kind.right);
      AppliedMerge(t, op);
      hide Stored, Rooted, Applied, Entombed;
      if op.kind.left !in nodes || op.kind.right !in nodes {
        return;
      }
      var left, right := nodes[op.kind.left], nodes[op.kind.right];
      if left.body.Element? || right.body.Element? {
        return;
      }
      var joined := Leaf(left.body.leafKind, left.body.text + right.body.text);
      Rewrite(op.kind.left, joined, op.id, t.nodes, t.order);
      ghost var rewritten := t.nodes[op.kind.left].(body := joined, textHead := op.id);
      Entomb(op.kind.right, op.id, t.nodes[op.kind.left := rewritten], t.order);
    }

    /** `_commit_local`: apply, then record. */
    method CommitOp(op: Op, ghost t: Tree)
      requires Is(t) && Grounded(t, op)
      modifies this`nodes, this`childrenByParent, this`order, this`records, this`log
      modifies records, frontier, frontier.Ranges()
      ensures Is(Commit(t, op))
      ensures fresh(records - old(records)) && fresh(frontier.Ranges() - old(frontier.Ranges()))
    {
      hide Is, Grounded, Applied;
      ApplyInState(op, t);
      Record(op, Applied(t, op));
    }

    method ApplyInState(op: Op, ghost t: Tree)
      requires Is(t) && Grounded(t, op)
      modifies this`nodes, this`childrenByParent, this`order, this`records, records
      ensures Is(Applied(t, op)) && fresh(records - old(records)) && frontier.Ranges() == old(frontier.Ranges())
    {
      hide Stored, Grounded, Applied;
      AppliedKeepsRest(t, op);
      ApplyOp(op, t);
    }

    /** `_record`: observe, log. */
    method Record(op: Op, ghost t: Tree)
      requires Is(t)
      modifies this`log, frontier, frontier.Ranges()
      ensures Is(t.(frontier := ObservedIn(t.frontier, op.id), log := t.log + [op]))
      ensures fresh(frontier.Ranges() - old(frontier.Ranges()))
    {
      hide Stored, ObservedIn;
      frontier.Observe(op.id);
      log := log + [op];
    }

    // ----- remote updates -----

    /** `apply_update`. */
    method ApplyUpdate(ops: seq<Op>, ghost t: Tree)
      requires Is(t)
      modifies this, records, frontier, frontier.Ranges()
      ensures Is(Updated(t, ops))
      ensures fresh(records - old(records)) && fresh(frontier.Ranges() - old(frontier.Ranges()))
    {
      ghost var now := t;
      hide Is, Has, Drained;
      assert ops[0..] == ops;
      for i := 0 to |ops|
        invariant Is(now) && Enqueued(now, ops[i..]) == Enqueued(t, ops)
        invariant records == old(records) && frontier.Ranges() == old(frontier.Ranges())
      {
        assert ops[i..][0] == ops[i] && ops[i..][1..] == ops[i + 1..];
        Advance(ops[i].id.counter, now);
        now := if ops[i].id.counter > now.counter then now.(counter := ops[i].id.counter) else now;
        var held := Holds(ops[i].id, now);
        if !held {
          Keep(ops[i], now);
          now := now.(buffered := now.buffered + [ops[i]]);
        }
      }
      assert ops[|ops|..] == [];
      DrainBuffered(now);
    }

    method Advance(c: nat, ghost t: Tree)
      requires Is(t)
      modifies this`counter
      ensures Is(if c > t.counter then t.(counter := c) else t)
    {
      hide Stored;
      if c > counter {
        counter := c;
      }
    }

    method Holds(id: OpId, ghost t: Tree) returns (held: bool)
      requires Is(t)
      ensures held == Has(t.frontier, id)
    {
      hide Stored;
      held := frontier.ContainsId(id);
    }

    method Keep(op: Op, ghost t: Tree)
      requires Is(t)
      modifies this`buffered
      ensures Is(t.(buffered := t.buffered + [op]))
    {
      hide Stored;
      buffered := buffered + [op];
    }

    method TakeBuffered(ghost t: Tree) returns (pending: seq<Op>)
      requires Is(t)
      modifies this`buffered
      ensures Is(t.(buffered := [])) && pending == t.buffered
    {
      hide Stored;
      pending := buffered;
      buffered := [];
    }

    method DependenciesReady(op: Op, ghost t: Tree) returns (ready: bool)
      requires Is(t)
      ensures ready == Ready(t, op)
    {
      hide Rooted, Indexed, Has;
      match op.kind
      case CreateNode(_, parent, _, _) => ready := parent in nodes;
      case Tombstone(target) => ready := target in nodes;
      case Reorder(target, _) => ready := target in nodes;
      case SplitLeaf(leaf, _, _, _, prev) =>
        ready := Holds(prev, t);
        ready := ready && leaf in nodes;
      case MergeLeaves(left, right, prevLeft, prevRight) =>
        var l := Holds(prevLeft, t);
        var r := Holds(prevRight, t);
        ready := l && r && left in nodes && right in nodes;
    }

    /** `_drain_buffered`: sweep the pending ops until a sweep applies none. */
    method DrainBuffered(ghost t: Tree)
      requires Is(t)
      modifies this, records, frontier, frontier.Ranges()
      ensures Is(Drained(t))
      ensures fresh(records - old(records)) && fresh(frontier.Ranges() - old(frontier.Ranges()))
    {
      hide Is, Sweep;
      ghost var now := t;
      while true
        invariant Is(now) && Drained(now) == Drained(t)
        invariant fresh(records - old(records)) && fresh(frontier.Ranges() - old(frontier.Ranges()))
        decreases |now.buffered|
      {
        var progressed := SweepPending(now);
        ghost var r := Sweep(now.(buffered := []), now.buffered);
        if !progressed {
          assert Drained(now) == r.0;
          return;
        }
        now := r.0;
      }
    }

    /** One pass over the pending ops. */
    method SweepPending(ghost t: Tree) returns (progressed: bool)
      requires Is(t)
      modifies this, records, frontier, frontier.Ranges()
      ensures Is(Sweep(t.(buffered := []), t.buffered).0) && progressed == Sweep(t.(buffered := []), t.buffered).1
      ensures fresh(records - old(records)) && fresh(frontier.Ranges() - old(frontier.Ranges()))
    {
      hide Is, Has, Ready, Grounded, Commit;
      progressed := false;
      var pending := TakeBuffered(t);
      ghost var now := t.(buffered := []);
      assert pending[0..] == pending;
      for i := 0 to |pending|
        invariant Is(now)
        invariant Sweep(t.(buffered := []), pending).0 == Sweep(now, pending[i..]).0
        invariant Sweep(t.(buffered := []), pending).1 == (progressed || Sweep(now, pending[i..]).1)
        invariant fresh(records - old(records)) && fresh(frontier.Ranges() - old(frontier.Ranges()))
      {
        var op := pending[i];
        assert pending[i..][0] == op && pending[i..][1..] == pending[i + 1..];
        var held := Holds(op.id, now);
        if !held {
          var ready := DependenciesReady(op, now);
          if ready {
            ReadyGrounded(now, op);
            CommitOp(op, now);
            progressed := true;
            now := Commit(now, op);
          } else {
            Keep(op, now);
            now := now.(buffered := now.buffered + [op]);
          }
        }
      }
      assert pending[|pending|..] == [];
    }

    // ----- local mutations -----

    /** `_key_after`. */
    method FindKeyAfter(parent: OpId, after: Option<OpId>, ghost t: Tree) returns (sort: SortKey)
      requires Is(t) && WellFormed(t)
      ensures sort == KeyAfter(t, parent, after)
    {
      hide Rooted, Stored, KidsIn, Between;
      var kids := LiveChildren(parent, t.nodes, t.order);
      KidsInAreKids(t.nodes, t.order, parent);
      var n := |kids|;
      forall i | 0 <= i < n ensures kids[i] in t.nodes {
        assert kids[i] in LiveKids(t.nodes, parent);
      }
      var lo, hi: Option<Frac> := None, None;
      if after.None? {
        if n > 0 {
          hi := FracOf(kids[0], t);
        }
      } else {
        var found, i := Find(kids, after.value);
        if found {
          lo := FracOf(after.value, t);
          if i + 1 < n {
            hi := FracOf(kids[i + 1], t);
          }
        } else if n > 0 {
          lo := FracOf(kids[n - 1], t);
        }
      }
      var key := KeyBetween(lo, hi);
      sort := SortKey(key, peer);
    }

    method FracOf(n: OpId, ghost t: Tree) returns (frac: Option<Frac>)
      requires Is(t) && n in t.nodes
      ensures frac == Some(t.nodes[n].sort.frac)
    {
      StoredAt(t.nodes, t.order, n);
      frac := Some(nodes[n].sort.frac);
    }

    method Find(kids: seq<OpId>, x: OpId) returns (found: bool, i: nat)
      ensures found <==> x in kids
      ensures found ==> i == IndexOf(kids, x)
    {
      i := 0;
      while i < |kids|
        invariant 0 <= i <= |kids| && x !in kids[..i]
      {
        if kids[i] == x {
          return true, i;
        }
        i := i + 1;
      }
      return false, i;
    }

    /** `_next_op_id` and `_commit_local`. */
    method CommitNext(kind: OpKind, ghost t: Tree) returns (id: OpId)
      requires Is(t) && Grounded(t, Op(NextId(t), kind))
      modifies this, records, frontier, frontier.Ranges()
      ensures id == NextId(t) && Is(CommitLocal(t, kind))
      ensures fresh(records - old(records)) && fresh(frontier.Ranges() - old(frontier.Ranges()))
    {
      hide Stored, Commit;
      Advance(counter + 1, t);
      id := OpId(counter, peer);
      CommitOp(Op(id, kind), t.(counter := t.counter + 1));
    }

    /** `create_node`. */
    method CreateNode(parent: OpId, after: Option<OpId>, seed: Body, ghost t: Tree) returns (r: Result<OpId, TreeError>)
      requires Is(t)
      modifies this, records, frontier, frontier.Ranges()
      ensures Is(Kept(t, Created(t, parent, after, seed)))
      ensures r == if parent in t.nodes then Ok(NextId(t)) else Err(NodeNotFound)
      ensures fresh(records - old(records)) && fresh(frontier.Ranges() - old(frontier.Ranges()))
    {
      hide Rooted, Stored, CommitLocal, KeyAfter;
      StoredAt(t.nodes, t.order, parent);
      if parent !in nodes {
        return Err(NodeNotFound);
      }
      var sort := FindKeyAfter(parent, after, t);
      var id := CommitNext(OpKind.CreateNode(OpId(counter + 1, peer), parent, sort, seed), t);
      r := Ok(id);
    }

    /** `tombstone_node`. */
    method TombstoneNode(node: OpId, ghost t: Tree) returns (r: Result<OpId, TreeError>)
      requires Is(t)
      modifies this, records, frontier, frontier.Ranges()
      ensures Is(Kept(t, Buried(t, node)))
      ensures r == if node in t.nodes && node != ROOT then Ok(NextId(t)) else Err(NodeNotFound)
      ensures fresh(records - old(records)) && fresh(frontier.Ranges() - old(frontier.Ranges()))
    {
      hide Rooted, Stored, CommitLocal;
      StoredAt(t.nodes, t.order, node);
      if node !in nodes || node == ROOT {
        return Err(NodeNotFound);
      }
      var id := CommitNext(Tombstone(node), t);
      r := Ok(id);
    }

    /** `reorder_child`. */
    method ReorderChild(node: OpId, after: Option<OpId>, ghost t: Tree) returns (r: Result<OpId, TreeError>)
      requires Is(t)
      modifies this, records, frontier, frontier.Ranges()
      ensures Is(Kept(t, Moved(t, node, after)))
      ensures r == if node in t.nodes && t.nodes[node].parent.Some? then Ok(NextId(t)) else Err(NodeNotFound)
      ensures fresh(records - old(records)) && fresh(frontier.Ranges() - old(frontier.Ranges()))
    {
      hide Rooted, Stored, CommitLocal, KeyAfter;
      StoredAt(t.nodes, t.order, node);
      if node !in nodes || nodes[node].parent.None? {
        return Err(NodeNotFound);
      }
      var sort := FindKeyAfter(nodes[node].parent.value, after, t);
      var id := CommitNext(Reorder(node, sort), t);
      r := Ok(id);
    }

    /** `byte_to_char`: walk the text until so many bytes are behind. */
    method CharOffset(text: string, atByte: int) returns (at: Option<nat>)
      ensures at == ByteToChar(text, atByte)
    {
      var i, rest := 0, atByte;
      while rest > 0 && i < |text|
        invariant i <= |text|
        invariant ByteToChar(text, atByte)
                  == (var more := ByteToChar(text[i..], rest); if more.None? then None else Some(i + more.value))
      {
        assert text[i..][0] == text[i] && text[i..][1..] == text[i + 1..];
        rest := rest - Utf8Width(text[i]);
        i := i + 1;
      }
      at := if rest == 0 then Some(i) else None;
    }

    /** `split_leaf`, by byte offset. */
    method SplitLeafAt(node: OpId, atByte: int, ghost t: Tree) returns (r: Result<OpId, TreeError>)
      requires Is(t)
      modifies this, records, frontier, frontier.Ranges()
      ensures Is(Kept(t, SplitAtByte(t, node, atByte)))
      ensures r == if node !in t.nodes then Err(NodeNotFound)
                   else if t.nodes[node].body.Element? then Err(NotALeaf)
                   else if ByteToChar(t.nodes[node].body.text, atByte).Some? then Ok(NextId(t)) else Err(BadOffset)
      ensures fresh(records - old(records)) && fresh(frontier.Ranges() - old(frontier.Ranges()))
    {
      hide Rooted, Stored, CommitLocal, KeyAfter;
      StoredAt(t.nodes, t.order, node);
      if node !in nodes {
        return Err(NodeNotFound);
      }
      if nodes[node].body.Element? {
        return Err(NotALeaf);
      }
      var found := CharOffset(nodes[node].body.text, atByte);
      if found.None? {
        return Err(BadOffset);
      }
      var at := found.value;
      ByteToCharIff(nodes[node].body.text, atByte, at);
      hide ByteToChar, Utf8Length;
      var sort := FindKeyAfter(nodes[node].parent.value, Some(node), t);
      var id := CommitNext(SplitLeaf(node, OpId(counter + 1, peer), sort, at, nodes[node].textHead), t);
      r := Ok(id);
    }

    /** `merge_adjacent_leaves`. */
    method MergeAdjacentLeaves(left: OpId, right: OpId, ghost t: Tree) returns (r: Result<OpId, TreeError>)
      requires Is(t)
      modifies this, records, frontier, frontier.Ranges()
      ensures Is(Kept(t, Merged(t, left, right)))
      ensures r == if left !in t.nodes then Err(NodeNotFound)
                   else if t.nodes[left].body.Element? then Err(NotALeaf)
                   else if right !in t.nodes then Err(NodeNotFound)
                   else if t.nodes[right].body.Element? then Err(NotALeaf)
                   else if Merged(t, left, right).Some? then Ok(NextId(t)) else Err(NotAdjacent)
      ensures fresh(records - old(records)) && fresh(frontier.Ranges() - old(frontier.Ranges()))
    {
      hide Rooted, Stored, CommitLocal, KidsIn;
      StoredAt(t.nodes, t.order, left);
      StoredAt(t.nodes, t.order, right);
      if left !in nodes {
        return Err(NodeNotFound);
      }
      if nodes[left].body.Element? {
        return Err(NotALeaf);
      }
      if right !in nodes {
        return Err(NodeNotFound);
      }
      if nodes[right].body.Element? {
        return Err(NotALeaf);
      }
      var kids := LiveChildren(nodes[left].parent.value, t.nodes, t.order);
      var found, i := Find(kids, left);
      if !found || i + 1 >= |kids| || kids[i + 1] != right {
        return Err(NotAdjacent);
      }
      var id := CommitNext(MergeLeaves(left, right, nodes[left].textHead, nodes[right].textHead), t);
      r := Ok(id);
    }

    // ----- anti-entropy -----

    /** `diff`: what the log holds and the other frontier lacks, by id. */
    method DiffFor(their: TreeVersionFrontier) returns (ops: seq<Op>)
      ensures ops == SortById(Lacking(log, their.Value()))
    {
      var missing: seq<Op> := [];
      ghost var f := their.Value();
      var i := |log|;
      assert log[|log|..] == [];
      while i > 0
        invariant 0 <= i <= |log| && missing == Lacking(log[i..], f)
        invariant their.dots.Keys == f.Keys && forall p :: p in f ==> their.dots[p].Value() == f[p]
      {
        i := i - 1;
        assert log[i..][0] == log[i] && log[i..][1..] == log[i + 1..];
        var held := their.ContainsId(log[i].id);
        if held {
          assert [] + missing == missing;
        } else {
          missing := [log[i]] + missing;
        }
      }
      assert log[0..] == log;
      ops := SortOps(missing);
      assert their.Value() == f;
    }

    /** A stable insertion sort by op id, in the place of the library's. */
    method SortOps(s: seq<Op>) returns (sorted: seq<Op>)
      ensures sorted == SortById(s)
    {
      sorted := [];
      var i := |s|;
      assert s[|s|..] == [];
      while i > 0
        invariant 0 <= i <= |s| && sorted == SortById(s[i..])
      {
        i := i - 1;
        assert s[i..][0] == s[i] && s[i..][1..] == s[i + 1..];
        sorted := InsertOp(s[i], sorted);
      }
      assert s[0..] == s;
    }

    method InsertOp(op: Op, s: seq<Op>) returns (r: seq<Op>)
      ensures r == InsertById(op, s)
      decreases |s|
    {
      if s == [] || !IdLess(s[0].id, op.id) {
        return [op] + s;
      }
      var rest := InsertOp(op, s[1..]);
      r := [s[0]] + rest;
    }
  }
}
