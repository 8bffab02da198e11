/** Runs of local edits at one replica of the lossless tree. */
module TreeRuns {
  import opened Wrappers
  import opened Sequences
  import opened VersionFrontier
  import opened TreeState
  import opened TreeConvergence
  import opened TreePlacement
  import opened TreeLossless

  datatype Edit =
    | CreateEdit(parent: OpId, after: Option<OpId>, seed: Body)
    | BuryEdit(node: OpId)
    | MoveEdit(node: OpId, after: Option<OpId>)
    | SplitEdit(node: OpId, at: int)
    | MergeEdit(left: OpId, right: OpId)

  /** A local edit; a refused one changes nothing. */
  function Edited(t: Tree, e: Edit): Tree
    requires WellFormed(t)
  {
    var r := match e
             case CreateEdit(parent, after, seed) => Created(t, parent, after, seed)
             case BuryEdit(node) => Buried(t, node)
             case MoveEdit(node, after) => Moved(t, node, after)
             case SplitEdit(node, at) => Split(t, node, at)
             case MergeEdit(left, right) => Merged(t, left, right);
    if r.Some? then r.value else t
  }

  /** Every local edit keeps live siblings on different fractions. */
  lemma {:induction false} EditedSolo(t: Tree, e: Edit)
    requires Solo(t)
    ensures Solo(Edited(t, e))
  {
    hide Rooted, KidsIn, ProperKeys, Spaced, Created, Buried, Moved, Split, Merged, Room, Slot, NodesClocked;
    match e
    case CreateEdit(parent, after, seed) =>
      if Created(t, parent, after, seed).Some? {
        assert parent in t.nodes by { WhenCreated(t, parent, after, seed); }
        SpacedRoom(t, parent, Slot(Children(t, parent), after));
        CreatedLands(t, parent, after, seed);
      }
    case BuryEdit(node) =>
      if Buried(t, node).Some? {
        WhenBuried(t, node);
        BuriedLeaves(t, node, t.nodes[node].parent.value);
      }
    case MoveEdit(node, after) =>
      if Moved(t, node, after).Some? {
        WhenMoved(t, node, after);
        var p := t.nodes[node].parent.value;
        SpacedRoom(t, p, Slot(Children(t, p), after));
        MovedLands(t, node, p, after);
      }
    case SplitEdit(node, at) =>
      if Split(t, node, at).Some? {
        WhenSplit(t, node, at);
        var p := t.nodes[node].parent.value;
        SpacedRoom(t, p, Slot(Children(t, p), Some(node)));
        SplitShape(t, node, p, at);
        SplitLands(t, node, p, at);
      }
    case MergeEdit(left, right) =>
      if Merged(t, left, right).Some? {
        WhenMerged(t, left, right);
        MergeShape(t, left, right, t.nodes[left].parent.value);
        MergeLands(t, left, right, t.nodes[left].parent.value);
      }
  }

  lemma {:induction false} WhenCreated(t: Tree, parent: OpId, after: Option<OpId>, seed: Body)
    requires WellFormed(t) && Created(t, parent, after, seed).Some?
    ensures parent in t.nodes
  {
  }

  lemma {:induction false} WhenBuried(t: Tree, n: OpId)
    requires WellFormed(t) && Buried(t, n).Some?
    ensures n in t.nodes && n != ROOT && t.nodes[n].parent.Some?
  {
    assert BehindParent(t.nodes, t.order, n);
  }

  lemma {:induction false} WhenMoved(t: Tree, n: OpId, after: Option<OpId>)
    requires WellFormed(t) && Moved(t, n, after).Some?
    ensures n in t.nodes && t.nodes[n].parent.Some?
  {
  }

  lemma {:induction false} WhenSplit(t: Tree, n: OpId, at: int)
    requires WellFormed(t) && Split(t, n, at).Some?
    ensures n in t.nodes && t.nodes[n].body.Leaf? && t.nodes[n].parent.Some? && 0 <= at <= |t.nodes[n].body.text|
  {
  }

  lemma {:induction false} WhenMerged(t: Tree, x: OpId, y: OpId)
    requires WellFormed(t) && Merged(t, x, y).Some?
    ensures x in t.nodes && t.nodes[x].parent.Some?
  {
  }

  /** The state after a run of local edits. */
  ghost function EditRun(t: Tree, es: seq<Edit>): (r: Tree)
    requires Solo(t)
    ensures Solo(r)
    decreases |es|
  {
    if es == [] then t
    else
      EditedSolo(t, es[0]);
      EditRun(Edited(t, es[0]), es[1..])
  }

  lemma {:induction false} EmptySolo(peer: nat)
    ensures Solo(EmptyTree(peer))
  {
    EmptyCoherent(peer);
  }

  /** A replica of its own after a run of edits; live siblings hold different fractions. */
  ghost function Solitary(peer: nat, es: seq<Edit>): (r: Tree)
    ensures Solo(r)
  {
    EmptySolo(peer);
    EditRun(EmptyTree(peer), es)
  }

  /** In every run of one replica, a node created or moved behind a live sibling comes
      directly after it. */
  lemma {:induction false} RunsPlaceBehind(peer: nat, es: seq<Edit>, p: OpId, a: OpId)
    requires p in Solitary(peer, es).nodes && a in Children(Solitary(peer, es), p)
    ensures var t := Solitary(peer, es);
            && (forall seed :: Created(t, p, Some(a), seed).Some?
                               && Follows(Children(Created(t, p, Some(a), seed).value, p), a, NextId(t)))
            && (forall n :: n in Children(t, p) && n != a ==>
                  Moved(t, n, Some(a)).Some? && Follows(Children(Moved(t, n, Some(a)).value, p), a, n))
  {
    hide Rooted, KidsIn, ProperKeys, Spaced, Created, Moved, Room, NodesClocked, Solitary, Follows;
    var t := Solitary(peer, es);
    SpacedRoom(t, p, IndexOf(Children(t, p), a) + 1);
    forall seed
      ensures Created(t, p, Some(a), seed).Some?
      ensures Follows(Children(Created(t, p, Some(a), seed).value, p), a, NextId(t))
    {
      CreatedAdjacentIff(t, p, a, seed);
      KnownCreates(t, p, a, seed);
    }
    forall n | n in Children(t, p) && n != a
      ensures Moved(t, n, Some(a)).Some? && Follows(Children(Moved(t, n, Some(a)).value, p), a, n)
    {
      KidsMove(t, n, p, a);
      MovedAdjacent(t, n, p, a);
    }
  }

  lemma {:induction false} KnownCreates(t: Tree, p: OpId, a: OpId, seed: Body)
    requires WellFormed(t) && p in t.nodes
    ensures Created(t, p, Some(a), seed).Some?
  {
  }

  lemma {:induction false} KidsMove(t: Tree, n: OpId, p: OpId, a: OpId)
    requires WellFormed(t) && n in Children(t, p)
    ensures n in t.nodes && t.nodes[n].parent == Some(p) && Moved(t, n, Some(a)).Some?
  {
    KidsInAreKids(t.nodes, t.order, p);
  }

  /** An edit that only changes structure: a split of a live leaf, or a merge. */
  predicate StructureEdit(t: Tree, e: Edit) {
    e.MergeEdit? || (e.SplitEdit? && e.node in t.nodes && t.nodes[e.node].tomb.None?)
  }

  /** In every run of one replica, structure edits keep the rendered text. */
  lemma {:induction false} RunsAreLossless(peer: nat, es: seq<Edit>, e: Edit)
    requires StructureEdit(Solitary(peer, es), e)
    ensures var t := Solitary(peer, es);
            WellFormed(Edited(t, e)) && Render(Edited(t, e)) == Render(t)
  {
    hide Rooted, KidsIn, ProperKeys, Spaced, Split, Merged, Room, Slot, NodesClocked, Solitary, RenderAt;
    var t := Solitary(peer, es);
    EditedSolo(t, e);
    if e.SplitEdit? {
      if Split(t, e.node, e.at).Some? {
        WhenSplit(t, e.node, e.at);
        var p := t.nodes[e.node].parent.value;
        SpacedRoom(t, p, Slot(Children(t, p), Some(e.node)));
        SplitKeepsText(t, e.node, p, e.at);
      }
    } else if Merged(t, e.left, e.right).Some? {
      WhenMerged(t, e.left, e.right);
      MergeKeepsText(t, e.left, e.right, t.nodes[e.left].parent.value);
    }
  }
}
