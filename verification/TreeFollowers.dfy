/** One writer and a follower: which splits and merges of a lossless tree travel by `diff`. */
module TreeFollowers {
  import opened Wrappers
  import opened Sequences
  import opened VersionFrontier
  import opened TreeState
  import opened TreeAntiEntropy
  import opened TreePlacement
  import opened TreeRuns

  /** A split or merge whose text head is the one no op ever made. */
  predicate NamesRoot(op: Op) {
    match op.kind
    case SplitLeaf(_, _, _, _, prev) => prev == ROOT
    case MergeLeaves(_, _, prevLeft, prevRight) => prevLeft == ROOT || prevRight == ROOT
    case _ => false
  }

  // ----- the writer -----

  /** The frontier of `n` ops of one peer. */
  function Counted(peer: nat, n: nat): Frontier {
    if n == 0 then map[] else map[peer := Dots(n, {})]
  }

  /** The ops of a writer that never heard of another one count up from one. */
  ghost predicate Numbered(t: Tree) {
    && t.buffered == [] && t.counter == |t.log| && t.frontier == Counted(t.peer, |t.log|)
    && forall i :: 0 <= i < |t.log| ==> t.log[i].id == OpId(i + 1, t.peer)
  }

  /** Every text head is an op of the writer, or the one a split leaves to the leaf it made. */
  ghost predicate Headed(t: Tree) {
    forall n :: n in t.nodes && n != ROOT ==> HeadKnown(t, t.nodes[n].textHead)
  }

  predicate HeadKnown(t: Tree, head: OpId) {
    t.log != [] && (head == ROOT || (head.peer == t.peer && head.counter <= |t.log|))
  }

  ghost predicate Alone(t: Tree) {
    Solo(t) && Numbered(t) && Headed(t)
  }

  lemma {:induction false} EmptyAlone(peer: nat)
    ensures Alone(EmptyTree(peer))
  {
    EmptySolo(peer);
    hide Solo;
  }

  lemma {:induction false} CountsOn(peer: nat, n: nat)
    ensures ObservedIn(Counted(peer, n), OpId(n + 1, peer)) == Counted(peer, n + 1)
  {
    assert {n + 1} - {n + 1} == {};
    assert {} + {n + 1} == {n + 1};
    assert Absorb(Dots(n + 1, {})) == Dots(n + 1, {});
    assert Observed(Dots(n, {}), n + 1) == Dots(n + 1, {});
  }

  /** The op a local edit commits, if it is not refused. It is ready where it is made exactly
      when it names no missing head; the peer numbered zero holds even that one. */
  lemma {:induction false} EditCommits(t: Tree, e: Edit) returns (op: Option<Op>)
    requires Alone(t)
    ensures op.None? ==> Edited(t, e) == t
    ensures op.Some? ==>
              op.value.id == NextId(t) && Edited(t, e) == Commit(t.(counter := t.counter + 1), op.value)
              && ReadyUnless(t, op.value)
    ensures Headed(Edited(t, e))
  {
    op := CommittedBy(t, e);
    EditedIs(t, e);
    if op.Some? {
      MadeReady(t, e);
      HeadsStay(t.(counter := t.counter + 1), op.value);
    }
    hide Rooted, NodesClocked, ProperKeys, Spaced, CommittedBy, Edited, Commit, Ready;
  }

  function CommittedBy(t: Tree, e: Edit): Option<Op>
    requires WellFormed(t)
  {
    var id := NextId(t);
    match e
    case CreateEdit(parent, after, seed) =>
      if Created(t, parent, after, seed).None? then None
      else Some(Op(id, CreateNode(id, parent, KeyAfter(t, parent, after), seed)))
    case BuryEdit(node) => if Buried(t, node).None? then None else Some(Op(id, Tombstone(node)))
    case MoveEdit(node, after) =>
      if Moved(t, node, after).None? then None
      else Some(Op(id, Reorder(node, KeyAfter(t, t.nodes[node].parent.value, after))))
    case SplitEdit(node, at) =>
      if Split(t, node, at).None? then None
      else
        var sort := KeyAfter(t, t.nodes[node].parent.value, Some(node));
        Some(Op(id, SplitLeaf(node, id, sort, at, t.nodes[node].textHead)))
    case MergeEdit(left, right) =>
      if Merged(t, left, right).None? then None
      else Some(Op(id, MergeLeaves(left, right, t.nodes[left].textHead, t.nodes[right].textHead)))
  }

  lemma {:induction false} EditedIs(t: Tree, e: Edit)
    requires WellFormed(t)
    ensures var op := CommittedBy(t, e);
            Edited(t, e) == if op.None? then t else Commit(t.(counter := t.counter + 1), op.value)
    ensures CommittedBy(t, e).Some? ==> CommittedBy(t, e).value.id == NextId(t)
  {
    hide Rooted, KeyAfter, Commit;
  }

  lemma {:induction false} HeadReady(t: Tree, head: OpId)
    requires Numbered(t) && HeadKnown(t, head)
    ensures Has(t.frontier, head) <==> !(head == ROOT && t.peer != 0)
  {
  }

  lemma {:induction false} LeafHead(t: Tree, n: OpId)
    requires WellFormed(t) && Headed(t) && n in t.nodes && t.nodes[n].body.Leaf?
    ensures HeadKnown(t, t.nodes[n].textHead)
  {
    assert n != ROOT;
  }

  /** Where it is made, an op is ready unless it names the missing head. */
  predicate ReadyUnless(t: Tree, op: Op) {
    Ready(t, op) <==> !(NamesRoot(op) && t.peer != 0)
  }

  lemma {:induction false} MadeReady(t: Tree, e: Edit)
    requires Alone(t) && CommittedBy(t, e).Some?
    ensures ReadyUnless(t, CommittedBy(t, e).value)
  {
    assert WellFormed(t);
    hide ReadyUnless, CommittedBy;
    match e
    case CreateEdit(_, _, _) => SimpleReady(t, e);
    case BuryEdit(_) => SimpleReady(t, e);
    case MoveEdit(_, _) => SimpleReady(t, e);
    case SplitEdit(node, at) => SplitMadeReady(t, node, at);
    case MergeEdit(left, right) => MergeMadeReady(t, left, right);
  }

  lemma {:induction false} SimpleReady(t: Tree, e: Edit)
    requires WellFormed(t) && CommittedBy(t, e).Some? && (e.CreateEdit? || e.BuryEdit? || e.MoveEdit?)
    ensures ReadyUnless(t, CommittedBy(t, e).value)
  {
    hide KeyAfter, Rooted, CommitLocal, Split, Merged;
  }

  lemma {:induction false} SplitMadeReady(t: Tree, node: OpId, at: int)
    requires Alone(t) && CommittedBy(t, SplitEdit(node, at)).Some?
    ensures ReadyUnless(t, CommittedBy(t, SplitEdit(node, at)).value)
  {
    hide KeyAfter, Rooted, Numbered, Headed, Has, Split, Children, Ready;
    CommittedSplit(t, node, at);
    hide Solo, CommittedBy;
    SplitReady(t, node, at);
    SplitOpReady(t, CommittedBy(t, SplitEdit(node, at)).value);
  }

  lemma {:induction false} CommittedSplit(t: Tree, node: OpId, at: int)
    requires WellFormed(t) && CommittedBy(t, SplitEdit(node, at)).Some?
    ensures Split(t, node, at).Some? && node in t.nodes
    ensures var kind := CommittedBy(t, SplitEdit(node, at)).value.kind;
            kind.SplitLeaf? && kind.leaf == node && kind.prev == t.nodes[node].textHead
  {
    hide KeyAfter, Rooted, Children, CommitLocal;
  }

  lemma {:induction false} SplitOpReady(t: Tree, op: Op)
    requires op.kind.SplitLeaf? && op.kind.leaf in t.nodes
    requires Has(t.frontier, op.kind.prev) <==> !(op.kind.prev == ROOT && t.peer != 0)
    ensures ReadyUnless(t, op)
  {
    hide Has;
  }

  lemma {:induction false} MergeMadeReady(t: Tree, left: OpId, right: OpId)
    requires Alone(t) && CommittedBy(t, MergeEdit(left, right)).Some?
    ensures ReadyUnless(t, CommittedBy(t, MergeEdit(left, right)).value)
  {
    hide KeyAfter, Rooted, Numbered, Headed, Has, Merged, Children, Ready;
    CommittedMerge(t, left, right);
    hide Solo, CommittedBy;
    MergeReady(t, left, right);
    MergeOpReady(t, CommittedBy(t, MergeEdit(left, right)).value);
  }

  lemma {:induction false} CommittedMerge(t: Tree, left: OpId, right: OpId)
    requires WellFormed(t) && CommittedBy(t, MergeEdit(left, right)).Some?
    ensures Merged(t, left, right).Some? && left in t.nodes && right in t.nodes
    ensures CommittedBy(t, MergeEdit(left, right)).value.kind
        == MergeLeaves(left, right, t.nodes[left].textHead, t.nodes[right].textHead)
  {
    hide KeyAfter, Rooted, Children, CommitLocal;
  }

  lemma {:induction false} MergeOpReady(t: Tree, op: Op)
    requires op.kind.MergeLeaves? && op.kind.left in t.nodes && op.kind.right in t.nodes
    requires Has(t.frontier, op.kind.prevLeft) && Has(t.frontier, op.kind.prevRight)
             <==> !((op.kind.prevLeft == ROOT || op.kind.prevRight == ROOT) && t.peer != 0)
    ensures ReadyUnless(t, op)
  {
    hide Has;
  }

  lemma {:induction false} SplitReady(t: Tree, n: OpId, at: int)
    requires Alone(t) && Split(t, n, at).Some?
    ensures n in t.nodes && (Has(t.frontier, t.nodes[n].textHead) <==> !(t.nodes[n].textHead == ROOT && t.peer != 0))
  {
    LeafHead(t, n);
    HeadReady(t, t.nodes[n].textHead);
  }

  lemma {:induction false} MergeReady(t: Tree, x: OpId, y: OpId)
    requires Alone(t) && Merged(t, x, y).Some?
    ensures x in t.nodes && y in t.nodes
    ensures Has(t.frontier, t.nodes[x].textHead) && Has(t.frontier, t.nodes[y].textHead)
            <==> !((t.nodes[x].textHead == ROOT || t.nodes[y].textHead == ROOT) && t.peer != 0)
  {
    hide KeyAfter, CommitLocal;
    LeafHead(t, x);
    LeafHead(t, y);
    hide Solo, Merged, Headed;
    HeadReady(t, t.nodes[x].textHead);
    HeadReady(t, t.nodes[y].textHead);
  }

  /** An op gives a text head its own id, leaves it, or leaves none to the leaf a split makes. */
  lemma {:induction false} AppliedHeads(t: Tree, op: Op, n: OpId)
    requires n in Applied(t, op).nodes
    ensures var head := Applied(t, op).nodes[n].textHead;
            head == op.id || head == ROOT || (n in t.nodes && head == t.nodes[n].textHead)
  {
  }

  lemma {:induction false} HeadsStay(t: Tree, op: Op)
    requires Headed(t) && op.id == OpId(|t.log| + 1, t.peer)
    ensures Headed(Commit(t, op))
  {
    CommitFields(t, op);
    hide Applied;
    forall n | n in Commit(t, op).nodes && n != ROOT ensures HeadKnown(Commit(t, op), Commit(t, op).nodes[n].textHead) {
      AppliedHeads(t, op, n);
    }
  }

  lemma {:induction false} CommitNumbered(t: Tree, op: Op)
    requires Numbered(t) && op.id == NextId(t)
    ensures var r := Commit(t.(counter := t.counter + 1), op);
            Numbered(r) && r.peer == t.peer && t.log <= r.log && |r.log| == |t.log| + 1
  {
    CountsOn(t.peer, |t.log|);
    CommitFields(t.(counter := t.counter + 1), op);
    hide Commit, ObservedIn, Counted;
  }

  lemma {:induction false} EditAlone(t: Tree, e: Edit)
    requires Alone(t)
    ensures Alone(Edited(t, e)) && Edited(t, e).peer == t.peer
    ensures t.log <= Edited(t, e).log && |Edited(t, e).log| <= |t.log| + 1
  {
    var op := EditCommits(t, e);
    EditedSolo(t, e);
    if op.Some? { CommitNumbered(t, op.value); }
    assert WellFormed(t);
    hide Solo, Headed, Edited, Rooted, Commit, Ready, Numbered, NamesRoot;
  }

  lemma {:induction false} CommitFields(t: Tree, op: Op)
    ensures var c := Commit(t, op);
            && c.peer == t.peer && c.counter == t.counter && c.buffered == t.buffered
            && c.log == t.log + [op] && c.frontier == ObservedIn(t.frontier, op.id)
  {
  }

  lemma {:induction false} RunAlone(t: Tree, es: seq<Edit>)
    requires Alone(t)
    ensures Alone(EditRun(t, es)) && EditRun(t, es).peer == t.peer && t.log <= EditRun(t, es).log
    decreases |es|
  {
    assert WellFormed(t);
    hide Solo, Headed, Numbered, Edited, Rooted;
    if es != [] {
      EditAlone(t, es[0]);
      RunAlone(Edited(t, es[0]), es[1..]);
    }
  }

  // ----- what the writer sends -----

  lemma {:induction false} LackingSplits(a: seq<Op>, b: seq<Op>, their: Frontier)
    ensures Lacking(a + b, their) == Lacking(a, their) + Lacking(b, their)
    decreases |a|
  {
    if a == [] {
      assert [] + b == b;
    } else {
      assert (a + b)[1..] == a[1..] + b;
      LackingSplits(a[1..], b, their);
    }
  }

  lemma {:induction false} LackingFrom(s: seq<Op>, n: nat, their: Frontier)
    requires n <= |s| && Lacking(s[..n], their) == []
    ensures Lacking(s, their) == Lacking(s[n..], their)
  {
    LackingSplits(s[..n], s[n..], their);
    hide Lacking;
    assert s[..n] + s[n..] == s;
  }

  lemma {:induction false} LackingAll(s: seq<Op>, their: Frontier)
    ensures (forall i :: 0 <= i < |s| ==> Has(their, s[i].id)) ==> Lacking(s, their) == []
    ensures (forall i :: 0 <= i < |s| ==> !Has(their, s[i].id)) ==> Lacking(s, their) == s
    decreases |s|
  {
    if s != [] { LackingAll(s[1..], their); }
  }

  lemma {:induction false} SortedStays(s: seq<Op>)
    requires forall i, j :: 0 <= i < j < |s| ==> IdLess(s[i].id, s[j].id)
    ensures SortById(s) == s
    decreases |s|
  {
    if s != [] {
      SortedStays(s[1..]);
      assert |s| > 1 ==> IdLess(s[0].id, s[1].id);
    }
  }

  lemma {:induction false} CountedHas(peer: nat, n: nat, counter: nat)
    requires counter >= 1
    ensures Has(Counted(peer, n), OpId(counter, peer)) <==> counter <= n
  {
  }

  lemma {:induction false} FrontIsHeld(t: Tree, n: nat)
    requires Numbered(t) && n <= |t.log|
    ensures Lacking(t.log[..n], Counted(t.peer, n)) == []
  {
    hide Has, Counted;
    var front := t.log[..n];
    forall i | 0 <= i < n ensures Has(Counted(t.peer, n), front[i].id) {
      assert front[i] == t.log[i];
      CountedHas(t.peer, n, i + 1);
    }
    LackingAll(front, Counted(t.peer, n));
  }

  lemma {:induction false} RestIsLacking(t: Tree, n: nat)
    requires Numbered(t) && n <= |t.log|
    ensures Lacking(t.log[n..], Counted(t.peer, n)) == t.log[n..]
  {
    hide Has, Counted;
    var rest := t.log[n..];
    forall i | 0 <= i < |rest| ensures !Has(Counted(t.peer, n), rest[i].id) {
      assert rest[i] == t.log[n + i];
      CountedHas(t.peer, n, n + i + 1);
    }
    LackingAll(rest, Counted(t.peer, n));
  }

  lemma {:induction false} RestIsSorted(t: Tree, n: nat)
    requires Numbered(t) && n <= |t.log|
    ensures SortById(t.log[n..]) == t.log[n..]
  {
    var rest := t.log[n..];
    forall i, j | 0 <= i < j < |rest| ensures IdLess(rest[i].id, rest[j].id) {
      assert rest[i] == t.log[n + i] && rest[j] == t.log[n + j];
    }
    SortedStays(rest);
  }

  /** To a follower that has the first `n` ops the writer sends the others, in order. */
  lemma {:induction false} DiffIsRest(t: Tree, n: nat)
    requires Numbered(t) && n <= |t.log|
    ensures Diff(t, Counted(t.peer, n)) == t.log[n..]
  {
    FrontIsHeld(t, n);
    RestIsLacking(t, n);
    RestIsSorted(t, n);
    LackingFrom(t.log, n, Counted(t.peer, n));
    hide Numbered, Lacking, SortById, Counted;
  }

  // ----- the follower -----

  /** No split or merge behind the first `n` ops names the missing head; a writer numbered
      zero has none to fear. */
  ghost predicate Passes(t: Tree, n: nat) {
    forall i :: n <= i < |t.log| ==> !(NamesRoot(t.log[i]) && t.peer != 0)
  }

  /** The follower holds what the writer holds; clock and name are its own. */
  predicate Mirrors(f: Tree, t: Tree) {
    f.nodes == t.nodes && f.order == t.order && f.frontier == t.frontier && f.log == t.log
  }

  lemma {:induction false} EnqueuedAll(f: Tree, ops: seq<Op>)
    requires forall i :: 0 <= i < |ops| ==> !Has(f.frontier, ops[i].id)
    ensures var e := Enqueued(f, ops); e == f.(counter := e.counter, buffered := f.buffered + ops)
    decreases |ops|
  {
    hide Has;
    if ops == [] {
      assert f.buffered + [] == f.buffered;
    } else {
      var op := ops[0];
      var clocked := if op.id.counter > f.counter then f.(counter := op.id.counter) else f;
      EnqueuedAll(clocked.(buffered := clocked.buffered + [op]), ops[1..]);
      assert f.buffered + [op] + ops[1..] == f.buffered + ops;
    }
  }

  lemma {:induction false} AppliedMirrors(f: Tree, t: Tree, op: Op)
    requires f.nodes == t.nodes && f.order == t.order
    ensures Applied(f, op).nodes == Applied(t, op).nodes && Applied(f, op).order == Applied(t, op).order
  {
    if op.kind.SplitLeaf? || op.kind.MergeLeaves? {
      StructureMirrors(f, t, op);
    } else {
      hide Entombed;
    }
  }

  lemma {:induction false} StructureMirrors(f: Tree, t: Tree, op: Op)
    requires f.nodes == t.nodes && f.order == t.order && (op.kind.SplitLeaf? || op.kind.MergeLeaves?)
    ensures Applied(f, op).nodes == Applied(t, op).nodes && Applied(f, op).order == Applied(t, op).order
  {
    hide Entombed, SplitAt;
  }

  lemma {:induction false} CommitMirrors(f: Tree, t: Tree, op: Op)
    requires Mirrors(f, t)
    ensures Mirrors(Commit(f, op), Commit(t, op)) && Commit(f, op).buffered == f.buffered
  {
    AppliedMirrors(f, t, op);
    CommitFields(f, op);
    CommitFields(t, op);
    hide Applied, ObservedIn;
  }

  lemma {:induction false} ReadyMirrors(f: Tree, t: Tree, op: Op)
    requires Mirrors(f, t)
    ensures Ready(f, op) <==> Ready(t, op)
  {
  }

  /** The first op of the rest is applied, and the sweep goes on behind it. */
  lemma {:induction false} FirstFollows(f: Tree, t: Tree, made: Tree, op: Op, log: seq<Op>)
    requires Mirrors(f, t) && made == t.(counter := t.counter + 1) && Ready(t, op) && !Has(t.frontier, op.id)
    requires |t.log| < |log| && log[|t.log|] == op
    ensures Mirrors(Commit(f, op), Commit(made, op)) && Commit(f, op).buffered == f.buffered
    ensures Sweep(f, log[|t.log|..]) == (Sweep(Commit(f, op), log[|t.log| + 1..]).0, true)
  {
    ReadyMirrors(f, t, op);
    CommitMirrors(f, made, op);
    hide Ready, Commit, Has;
    assert log[|t.log|..][0] == op && log[|t.log|..][1..] == log[|t.log| + 1..];
  }

  lemma {:induction false} NextIsLacking(t: Tree)
    requires Numbered(t)
    ensures !Has(t.frontier, NextId(t))
  {
  }

  /** One sweep over what a run of the writer made applies it all, op by op. */
  lemma {:induction false} SweepFollows(f: Tree, t: Tree, es: seq<Edit>)
    requires Alone(t) && Mirrors(f, t) && t.log <= EditRun(t, es).log
    requires Passes(EditRun(t, es), |t.log|) && EditRun(t, es).peer == t.peer
    ensures var u := EditRun(t, es); var r := Sweep(f, u.log[|t.log|..]);
            Mirrors(r.0, u) && r.0.buffered == f.buffered && (r.1 <==> |u.log| > |t.log|)
    decreases |es|
  {
    assert WellFormed(t);
    hide Solo, Headed, Commit, Ready, Rooted, Numbered;
    if es == [] {
      assert t.log[|t.log|..] == [];
    } else {
      var next, u := Edited(t, es[0]), EditRun(t, es);
      var op := EditCommits(t, es[0]);
      EditAlone(t, es[0]);
      RunAlone(next, es[1..]);
      NextIsLacking(t);
      hide Edited, Sweep, Has, Mirrors;
      if op.None? {
        SweepFollows(f, t, es[1..]);
      } else {
        var made, rest := t.(counter := t.counter + 1), u.log[|t.log|..];
        CommitFields(made, op.value);
        assert u.log[|t.log|] == op.value && ReadyUnless(t, op.value);
        FirstFollows(f, t, made, op.value, u.log);
        SweepFollows(Commit(f, op.value), next, es[1..]);
        assert Sweep(f, rest) == (Sweep(Commit(f, op.value), u.log[|next.log|..]).0, true);
      }
    }
  }

  lemma {:induction false} DrainedFollows(f: Tree, t: Tree, es: seq<Edit>)
    requires Alone(t) && Mirrors(f.(buffered := []), t) && t.log <= EditRun(t, es).log
    requires f.buffered == EditRun(t, es).log[|t.log|..]
    requires Passes(EditRun(t, es), |t.log|) && EditRun(t, es).peer == t.peer
    ensures Mirrors(Drained(f), EditRun(t, es)) && Drained(f).buffered == []
  {
    SweepFollows(f.(buffered := []), t, es);
    hide Solo, Alone, Mirrors, EditRun;
    var r := Sweep(f.(buffered := []), f.buffered);
    if r.1 {
      assert r.0.(buffered := []) == r.0;
      assert Sweep(r.0, []) == (r.0, false);
    }
  }

  // ----- ops that wait -----

  /** What names the missing head is never applied while no op of peer zero is. */
  lemma {:induction false} SweepWithholds(t: Tree, pending: seq<Op>)
    requires 0 !in t.frontier && forall op :: op in pending ==> op.id.peer != 0
    ensures var r := Sweep(t, pending).0;
            && 0 !in r.frontier && (forall op :: op in r.log ==> op in t.log || !NamesRoot(op))
            && (forall op :: op in r.buffered ==> op in t.buffered || op in pending)
    decreases |pending|
  {
    hide Applied;
    if pending != [] {
      var op := pending[0];
      if Has(t.frontier, op.id) {
        SweepWithholds(t, pending[1..]);
      } else if Ready(t, op) {
        CommitKeepsRest(t, op);
        hide Commit;
        SweepWithholds(Commit(t, op), pending[1..]);
      } else {
        SweepWithholds(t.(buffered := t.buffered + [op]), pending[1..]);
      }
    }
  }

  lemma {:induction false} CommitKeepsRest(t: Tree, op: Op)
    ensures var c := Commit(t, op);
            c.buffered == t.buffered && c.log == t.log + [op] && c.frontier == ObservedIn(t.frontier, op.id)
  {
  }

  lemma {:induction false} DrainWithholds(t: Tree)
    requires 0 !in t.frontier && forall op :: op in t.buffered ==> op.id.peer != 0
    ensures 0 !in Drained(t).frontier && forall op :: op in Drained(t).log ==> op in t.log || !NamesRoot(op)
    ensures forall op :: op in Drained(t).buffered ==> op in t.buffered
    decreases |t.buffered|
  {
    SweepWithholds(t.(buffered := []), t.buffered);
    hide Sweep;
    var r := Sweep(t.(buffered := []), t.buffered);
    if r.1 { DrainWithholds(r.0); }
  }

  lemma {:induction false} EnqueueWithholds(t: Tree, ops: seq<Op>)
    ensures Enqueued(t, ops).frontier == t.frontier && Enqueued(t, ops).log == t.log
    ensures forall op :: op in Enqueued(t, ops).buffered ==> op in t.buffered || op in ops
    decreases |ops|
  {
    if ops != [] {
      var op := ops[0];
      var clocked := if op.id.counter > t.counter then t.(counter := op.id.counter) else t;
      var kept := clocked.(buffered := clocked.buffered + [op]);
      EnqueueWithholds(if Has(t.frontier, op.id) then clocked else kept, ops[1..]);
    }
  }

  /** Nor by any further delivery, in whatever batches, that brings no op of peer zero. */
  lemma {:induction false} WaitsForever(t: Tree, batches: seq<seq<Op>>)
    requires 0 !in t.frontier && forall op :: op in t.buffered ==> op.id.peer != 0
    requires forall i, op :: 0 <= i < |batches| && op in batches[i] ==> op.id.peer != 0
    ensures forall op :: op in Delivered(t, batches).log ==> op in t.log || !NamesRoot(op)
    decreases |batches|
  {
    hide NamesRoot, Enqueued, Drained;
    if batches != [] {
      EnqueueWithholds(t, batches[0]);
      DrainWithholds(Enqueued(t, batches[0]));
      assert forall i :: 0 <= i < |batches[1..]| ==> batches[1..][i] == batches[i + 1];
      WaitsForever(Updated(t, batches[0]), batches[1..]);
    }
  }

  // ----- the guarantee -----

  /** The follower of one writer, holding a part of its run, that pulls the rest holds the
      whole of it, records and text, if and only if no split or merge of the rest names the
      head that a split leaves to the leaf it makes; a writer numbered zero has no such op to
      fear. Such an op waits at the follower, and with it whatever needs it. */
  lemma {:induction false} FollowerCatchesUpIff(peer: nat, xs: seq<Edit>, ys: seq<Edit>, f: Tree)
    requires Mirrors(f, Solitary(peer, xs)) && f.buffered == []
    ensures var s := Solitary(peer, xs); var t := EditRun(s, ys); var r := Updated(f, Diff(t, f.frontier));
            && s.log <= t.log && t.peer == peer
            && (Elements(r.log) == Elements(t.log) <==> Passes(t, |s.log|))
            && (Passes(t, |s.log|) ==> Mirrors(r, t) && r.buffered == [])
  {
    SolitaryAlone(peer, xs);
    var s := Solitary(peer, xs);
    RunAlone(s, ys);
    var t := EditRun(s, ys);
    PullIsRest(s, t, f);
    hide Solo, Headed, Numbered, EditRun, Solitary, Rooted, Enqueued, Updated, Drained, Diff;
    var e := Enqueued(f, t.log[|s.log|..]);
    if Passes(t, |s.log|) {
      DrainedFollows(e, s, ys);
      hide Passes;
      assert Drained(e).log == t.log;
    } else {
      var i :| |s.log| <= i < |t.log| && NamesRoot(t.log[i]) && t.peer != 0;
      RestWaits(s, t, f, i);
      hide Passes, Mirrors;
    }
  }

  /** It takes three edits: a leaf, a split of it, and a split of the leaf that split made. */
  lemma {:induction false} SecondSplitWaits(peer: nat, body: Body, f: Tree)
    requires peer != 0 && body.Leaf? && Mirrors(f, EmptyTree(peer)) && f.buffered == []
    ensures var create, split := CreateEdit(ROOT, None, body), SplitEdit(OpId(1, peer), 0);
            var t := Solitary(peer, [create, split, SplitEdit(OpId(2, peer), 0)]);
            |t.log| == 3 && Elements(Updated(f, Diff(t, f.frontier)).log) != Elements(t.log)
  {
    var create, one, two := CreateEdit(ROOT, None, body), SplitEdit(OpId(1, peer), 0), SplitEdit(OpId(2, peer), 0);
    EmptySolo(peer);
    NoEdits(EmptyTree(peer));
    ThreeEdits(EmptyTree(peer), create, one, two);
    var a, b, c := TwoSplits(peer, body);
    hide Solo, Edited, EditRun, NamesRoot, Mirrors, Updated, Diff;
    FollowerCatchesUpIff(peer, [], [create, one, two], f);
  }

  lemma {:induction false} NoEdits(t: Tree)
    requires Solo(t)
    ensures EditRun(t, []) == t
  {
    hide Solo;
  }

  lemma {:induction false} ThreeEdits(t: Tree, a: Edit, b: Edit, c: Edit)
    requires Solo(t)
    ensures Solo(Edited(t, a)) && Solo(Edited(Edited(t, a), b))
    ensures EditRun(t, [a, b, c]) == Edited(Edited(Edited(t, a), b), c)
  {
    EditedSolo(t, a);
    EditedSolo(Edited(t, a), b);
    EditedSolo(Edited(Edited(t, a), b), c);
    assert WellFormed(t) && WellFormed(Edited(t, a)) && WellFormed(Edited(Edited(t, a), b));
    hide Solo, Edited, Rooted;
    NoEdits(Edited(Edited(Edited(t, a), b), c));
    assert [a, b, c][1..] == [b, c] && [b, c][1..] == [c] && [c][1..] == [];
    assert EditRun(Edited(Edited(t, a), b), [c]) == Edited(Edited(Edited(t, a), b), c);
    assert EditRun(Edited(t, a), [b, c]) == EditRun(Edited(Edited(t, a), b), [c]);
  }

  /** The third op of the three names the head of a leaf that a split made. */
  lemma {:induction false} TwoSplits(peer: nat, body: Body) returns (a: Tree, b: Tree, c: Tree)
    requires body.Leaf?
    ensures WellFormed(EmptyTree(peer)) && a == Edited(EmptyTree(peer), CreateEdit(ROOT, None, body))
    ensures WellFormed(a) && b == Edited(a, SplitEdit(OpId(1, peer), 0))
    ensures WellFormed(b) && c == Edited(b, SplitEdit(OpId(2, peer), 0))
    ensures |c.log| == 3 && NamesRoot(c.log[2])
  {
    EmptySolo(peer);
    EmptyAlone(peer);
    FirstLeaf(peer, body);
    var s := EmptyTree(peer);
    EditAlone(s, CreateEdit(ROOT, None, body));
    a := Edited(s, CreateEdit(ROOT, None, body));
    NextUnmade(a);
    hide Edited, NamesRoot, Rooted, Numbered, Headed, NodesClocked, ProperKeys, Spaced;
    SplitMakes(a, OpId(1, peer));
    EditAlone(a, SplitEdit(OpId(1, peer), 0));
    b := Edited(a, SplitEdit(OpId(1, peer), 0));
    NextUnmade(b);
    SplitMakes(b, OpId(2, peer));
    c := Edited(b, SplitEdit(OpId(2, peer), 0));
  }

  lemma {:induction false} NextUnmade(t: Tree)
    requires Alone(t)
    ensures NextId(t) !in t.nodes && WellFormed(t)
  {
  }

  lemma {:induction false} FirstLeaf(peer: nat, body: Body)
    requires body.Leaf?
    ensures WellFormed(EmptyTree(peer))
    ensures var a := Edited(EmptyTree(peer), CreateEdit(ROOT, None, body)); var n := OpId(1, peer);
            a.peer == peer && a.counter == 1 && |a.log| == 1 && n in a.nodes
            && a.nodes[n].body.Leaf? && a.nodes[n].parent == Some(ROOT)
  {
    EmptySolo(peer);
    hide KeyAfter, Rooted;
  }

  /** A split of a held leaf makes a leaf that names no head, and is itself an op that names
      the head of the leaf it splits. */
  lemma {:induction false} SplitMakes(t: Tree, n: OpId)
    requires WellFormed(t) && n in t.nodes && t.nodes[n].body.Leaf? && t.nodes[n].parent.Some?
    requires NextId(t) !in t.nodes
    ensures var r := Edited(t, SplitEdit(n, 0)); var made := NextId(t);
            && r.peer == t.peer && r.counter == t.counter + 1 && |r.log| == |t.log| + 1
            && made in r.nodes && r.nodes[made].body.Leaf? && r.nodes[made].parent.Some?
            && r.nodes[made].textHead == ROOT
            && (NamesRoot(r.log[|t.log|]) <==> t.nodes[n].textHead == ROOT) && t.log <= r.log
  {
    hide KeyAfter, Rooted;
  }

  lemma {:induction false} RestWaits(s: Tree, t: Tree, f: Tree, i: nat)
    requires Numbered(s) && Numbered(t) && s.peer == t.peer && s.log <= t.log && Mirrors(f, s) && f.buffered == []
    requires t.peer != 0 && |s.log| <= i < |t.log| && NamesRoot(t.log[i])
    ensures Elements(Drained(Enqueued(f, t.log[|s.log|..])).log) != Elements(t.log)
  {
    PullIsRest(s, t, f);
    RestIsNew(s, t, i);
    hide Numbered, Enqueued, Updated, Drained, Diff, NamesRoot;
    var e := Enqueued(f, t.log[|s.log|..]);
    DrainWithholds(e);
    assert t.log[i] in Elements(t.log) && t.log[i] !in Elements(Drained(e).log);
  }

  lemma {:induction false} SolitaryAlone(peer: nat, xs: seq<Edit>)
    ensures Alone(Solitary(peer, xs)) && Solitary(peer, xs).peer == peer
  {
    EmptyAlone(peer);
    RunAlone(EmptyTree(peer), xs);
    hide Solo, Headed, Numbered, EditRun;
  }

  /** The pull puts the rest of the writer's ops into the buffer, in order. */
  lemma {:induction false} PullIsRest(s: Tree, t: Tree, f: Tree)
    requires Numbered(s) && Numbered(t) && s.peer == t.peer && s.log <= t.log && Mirrors(f, s) && f.buffered == []
    ensures var rest := t.log[|s.log|..]; var e := Enqueued(f, rest);
            && Diff(t, f.frontier) == rest && Updated(f, rest) == Drained(e)
            && e == f.(counter := e.counter, buffered := rest)
            && (forall i :: 0 <= i < |rest| ==> rest[i].id.peer == t.peer)
            && (t.peer != 0 ==> 0 !in f.frontier)
  {
    hide Has, Drained, Diff;
    var rest := t.log[|s.log|..];
    DiffIsRest(t, |s.log|);
    forall i | 0 <= i < |rest| ensures !Has(f.frontier, rest[i].id) && rest[i].id.peer == t.peer {
      assert rest[i] == t.log[|s.log| + i];
      CountedHas(t.peer, |s.log|, |s.log| + i + 1);
    }
    EnqueuedAll(f, rest);
    assert [] + rest == rest;
  }

  lemma {:induction false} RestIsNew(s: Tree, t: Tree, i: nat)
    requires Numbered(s) && Numbered(t) && s.log <= t.log && |s.log| <= i < |t.log|
    ensures t.log[i] !in s.log
  {
  }
}
