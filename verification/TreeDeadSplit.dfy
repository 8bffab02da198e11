/** Splitting a leaf that was already deleted: the tail comes back as a live leaf at the end
    of its parent, so the text is kept exactly when nobody can see it. */
module TreeDeadSplit {
  import opened Wrappers
  import opened Sequences
  import opened FractionalKeys
  import opened VersionFrontier
  import opened TreeState
  import opened TreeConvergence
  import opened TreeAgreement
  import opened TreePlacement
  import opened TreeLossless

  /** Rendering reaches `n`: every node on the way down is live and every parent an element. */
  ghost predicate Shown(nodes: Nodes, order: seq<OpId>, n: OpId)
    requires Rooted(nodes, order) && n in nodes
    decreases (assert n in Elements(order); IndexOf(order, n))
  {
    assert n in Elements(order);
    n == ROOT || (
      ParentBefore(nodes, order, n);
      nodes[n].tomb.None? && nodes[nodes[n].parent.value].body.Element? && Shown(nodes, order, nodes[n].parent.value))
  }

  lemma {:induction false} ParentBefore(nodes: Nodes, order: seq<OpId>, n: OpId)
    requires Rooted(nodes, order) && n in nodes && n != ROOT
    ensures n in order && nodes[n].parent.Some? && nodes[n].parent.value in nodes && nodes[n].parent.value in order
    ensures IndexOf(order, nodes[n].parent.value) < IndexOf(order, n)
  {
    assert BehindParent(nodes, order, n);
    assert nodes[n].parent.value in Elements(order);
  }

  /** `a` is `n` or lies above it. */
  ghost predicate Above(nodes: Nodes, order: seq<OpId>, a: OpId, n: OpId)
    requires Rooted(nodes, order) && n in nodes
    decreases (assert n in Elements(order); IndexOf(order, n))
  {
    assert n in Elements(order);
    a == n || (n != ROOT && (ParentBefore(nodes, order, n); Above(nodes, order, a, nodes[n].parent.value)))
  }

  lemma {:induction false} AboveIndex(nodes: Nodes, order: seq<OpId>, a: OpId, n: OpId)
    requires Rooted(nodes, order) && n in nodes && Above(nodes, order, a, n)
    ensures a in nodes && a in order && n in order && IndexOf(order, a) <= IndexOf(order, n)
    decreases (assert n in Elements(order); IndexOf(order, n))
  {
    hide Rooted;
    InOrder(nodes, order, n);
    if a != n {
      ParentBefore(nodes, order, n);
      AboveIndex(nodes, order, a, nodes[n].parent.value);
    }
  }

  lemma {:induction false} InOrder(nodes: Nodes, order: seq<OpId>, n: OpId)
    requires Rooted(nodes, order) && n in nodes
    ensures n in order
  {
    assert n in Elements(order);
  }

  /** The parent of something above `n` is above `n`. */
  lemma {:induction false} AboveParent(nodes: Nodes, order: seq<OpId>, k: OpId, n: OpId)
    requires Rooted(nodes, order) && n in nodes && Above(nodes, order, k, n) && k in nodes && k != ROOT
    ensures nodes[k].parent.Some? && Above(nodes, order, nodes[k].parent.value, n)
    decreases (assert n in Elements(order); IndexOf(order, n))
  {
    hide Rooted;
    InOrder(nodes, order, n);
    ParentBefore(nodes, order, k);
    if n != ROOT {
      ParentBefore(nodes, order, n);
      if k != n {
        AboveParent(nodes, order, k, nodes[n].parent.value);
      }
    }
  }

  lemma {:induction false} RootAbove(nodes: Nodes, order: seq<OpId>, n: OpId)
    requires Rooted(nodes, order) && n in nodes
    ensures Above(nodes, order, ROOT, n)
    decreases (assert n in Elements(order); IndexOf(order, n))
  {
    hide Rooted;
    InOrder(nodes, order, n);
    if n != ROOT {
      ParentBefore(nodes, order, n);
      RootAbove(nodes, order, nodes[n].parent.value);
    }
  }

  /** Of the children of one node, at most one lies above `n`. */
  lemma {:induction false} OneWayDown(nodes: Nodes, order: seq<OpId>, j: OpId, k: OpId, n: OpId)
    requires Rooted(nodes, order) && n in nodes && j in nodes && k in nodes && j != ROOT && k != ROOT
    requires nodes[j].parent == nodes[k].parent && Above(nodes, order, j, n) && Above(nodes, order, k, n)
    ensures j == k
    decreases (assert n in Elements(order); IndexOf(order, n))
  {
    hide Rooted;
    InOrder(nodes, order, n);
    ParentBefore(nodes, order, j);
    ParentBefore(nodes, order, k);
    if j != n && k != n {
      ParentBefore(nodes, order, n);
      OneWayDown(nodes, order, j, k, nodes[n].parent.value);
    } else if j != k {
      AboveIndex(nodes, order, if j == n then k else j, nodes[n].parent.value);
      assert false;
    }
  }

  /** From something above `n` there is a child that is still above `n`. */
  lemma {:induction false} StepDown(nodes: Nodes, order: seq<OpId>, a: OpId, n: OpId) returns (c: OpId)
    requires Rooted(nodes, order) && n in nodes && Above(nodes, order, a, n) && a != n
    ensures c in nodes && c != ROOT && nodes[c].parent == Some(a) && Above(nodes, order, c, n)
    decreases (assert n in Elements(order); IndexOf(order, n))
  {
    hide Rooted;
    InOrder(nodes, order, n);
    ParentBefore(nodes, order, n);
    if nodes[n].parent.value == a {
      c := n;
    } else {
      c := StepDown(nodes, order, a, nodes[n].parent.value);
    }
  }

  lemma {:induction false} ShownAbove(nodes: Nodes, order: seq<OpId>, a: OpId, n: OpId)
    requires Rooted(nodes, order) && n in nodes && Above(nodes, order, a, n) && Shown(nodes, order, n)
    ensures a in nodes && Shown(nodes, order, a)
    decreases (assert n in Elements(order); IndexOf(order, n))
  {
    hide Rooted;
    InOrder(nodes, order, n);
    if a != n {
      ParentBefore(nodes, order, n);
      ShownAbove(nodes, order, a, nodes[n].parent.value);
    }
  }

  // ----- the effect on the text -----

  /** Where `p` is not shown, nothing that is shown changes. */
  lemma {:induction false} HiddenChange(nodes: Nodes, order: seq<OpId>, nodes': Nodes, order': seq<OpId>, p: OpId,
      touched: set<OpId>, n: OpId)
    requires Framed(nodes, order, nodes', order', p, touched) && n in nodes && n !in touched
    requires Shown(nodes, order, n) && !Shown(nodes, order, p)
    ensures n in nodes' && RenderAt(nodes', order', n) == RenderAt(nodes, order, n)
    decreases Height(order, n), 1, 0
  {
    hide Framed, KidsIn, Rooted, Height, Shown;
    FramedAt(nodes, order, nodes', order', p, touched, n);
    FramedRooted(nodes, order, nodes', order', p, touched);
    if nodes[n].body.Element? {
      forall k | k in KidsIn(nodes, order, n) ensures Shown(nodes, order, k) { ShownKid(nodes, order, n, k); }
      HiddenChangeKids(nodes, order, nodes', order', p, touched, n, KidsIn(nodes, order, n));
    }
  }

  lemma {:induction false} ShownKid(nodes: Nodes, order: seq<OpId>, n: OpId, k: OpId)
    requires Rooted(nodes, order) && n in nodes && Shown(nodes, order, n) && nodes[n].body.Element?
        && k in LiveKids(nodes, n)
    ensures k in nodes && Shown(nodes, order, k)
  {
    ParentBefore(nodes, order, k);
  }

  lemma {:induction false} HiddenChangeKids(nodes: Nodes, order: seq<OpId>, nodes': Nodes, order': seq<OpId>, p: OpId,
      touched: set<OpId>, n: OpId, kids: seq<OpId>)
    requires Framed(nodes, order, nodes', order', p, touched) && n in nodes && n in nodes'
    requires !Shown(nodes, order, p)
    requires forall k :: k in kids ==>
               && k in nodes && k !in touched && Shown(nodes, order, k)
               && k in LiveKids(nodes, n) && k in LiveKids(nodes', n)
    ensures RenderKids(nodes', order', n, kids) == RenderKids(nodes, order, n, kids)
    decreases Height(order, n), 0, |kids|
  {
    hide Framed, KidsIn, LiveKids, Rooted, Height, RenderAt, Shown;
    FramedRooted(nodes, order, nodes', order', p, touched);
    if kids != [] {
      KidIsLower(nodes, order, n, kids[0]);
      KidIsLower(nodes', order', n, kids[0]);
      HiddenChange(nodes, order, nodes', order', p, touched, kids[0]);
      HiddenChangeKids(nodes, order, nodes', order', p, touched, n, kids[1..]);
    }
  }

  /** Beside the path down to `p` nothing changes. */
  lemma {:induction false} BesideChange(nodes: Nodes, order: seq<OpId>, nodes': Nodes, order': seq<OpId>, p: OpId,
      touched: set<OpId>, n: OpId)
    requires Framed(nodes, order, nodes', order', p, touched) && n in nodes && n !in touched
    requires !Above(nodes, order, n, p)
    ensures n in nodes' && RenderAt(nodes', order', n) == RenderAt(nodes, order, n)
    decreases Height(order, n), 1, 0
  {
    hide Framed, KidsIn, Rooted, Height, LiveKids;
    FramedAt(nodes, order, nodes', order', p, touched, n);
    FramedRooted(nodes, order, nodes', order', p, touched);
    assert n != p;
    if nodes[n].body.Element? {
      forall k | k in KidsIn(nodes, order, n) ensures !Above(nodes, order, k, p) {
        KidParent(nodes, order, n, k);
        if Above(nodes, order, k, p) { AboveParent(nodes, order, k, p); }
      }
      BesideChangeKids(nodes, order, nodes', order', p, touched, n, KidsIn(nodes, order, n));
    }
  }

  lemma {:induction false} KidParent(nodes: Nodes, order: seq<OpId>, n: OpId, k: OpId)
    requires Rooted(nodes, order) && k in LiveKids(nodes, n)
    ensures k in nodes && nodes[k].parent == Some(n) && k != ROOT
  {
  }

  lemma {:induction false} BesideChangeKids(nodes: Nodes, order: seq<OpId>, nodes': Nodes, order': seq<OpId>, p: OpId,
      touched: set<OpId>, n: OpId, kids: seq<OpId>)
    requires Framed(nodes, order, nodes', order', p, touched) && n in nodes && n in nodes'
    requires forall k :: k in kids ==>
               && k in nodes && k !in touched && !Above(nodes, order, k, p)
               && k in LiveKids(nodes, n) && k in LiveKids(nodes', n)
    ensures RenderKids(nodes', order', n, kids) == RenderKids(nodes, order, n, kids)
    decreases Height(order, n), 0, |kids|
  {
    hide Framed, KidsIn, LiveKids, Rooted, Height, RenderAt, Above;
    FramedRooted(nodes, order, nodes', order', p, touched);
    if kids != [] {
      KidIsLower(nodes, order, n, kids[0]);
      KidIsLower(nodes', order', n, kids[0]);
      BesideChange(nodes, order, nodes', order', p, touched, kids[0]);
      BesideChangeKids(nodes, order, nodes', order', p, touched, n, kids[1..]);
    }
  }

  /** A gain in length at `p` is the same gain at everything above a shown `p`. */
  lemma {:induction false} GainClimbs(nodes: Nodes, order: seq<OpId>, nodes': Nodes, order': seq<OpId>, p: OpId,
      touched: set<OpId>, gain: nat, a: OpId)
    requires Framed(nodes, order, nodes', order', p, touched) && Shown(nodes, order, p)
    requires p in nodes' && |RenderAt(nodes', order', p)| == |RenderAt(nodes, order, p)| + gain
    requires Above(nodes, order, a, p) && a in nodes && a !in touched
    requires forall k :: k in nodes && k in touched ==> nodes[k].tomb.Some?
    ensures a in nodes' && |RenderAt(nodes', order', a)| == |RenderAt(nodes, order, a)| + gain
    decreases Height(order, a)
  {
    hide Framed, KidsIn, Rooted, Height, LiveKids, RenderKids;
    if a != p {
      FramedAt(nodes, order, nodes', order', p, touched, a);
      FramedRooted(nodes, order, nodes', order', p, touched);
      var c := StepDown(nodes, order, a, p);
      ShownAbove(nodes, order, c, p);
      ShownLive(nodes, order, c, a);
      KidIsLower(nodes, order, a, c);
      GainClimbs(nodes, order, nodes', order', p, touched, gain, c);
      KidsInAreKids(nodes, order, a);
      GainAtParent(nodes, order, nodes', order', p, touched, gain, a, c);
    }
  }

  lemma {:induction false} ShownLive(nodes: Nodes, order: seq<OpId>, c: OpId, a: OpId)
    requires Rooted(nodes, order) && c in nodes && c != ROOT && nodes[c].parent == Some(a) && Shown(nodes, order, c)
    ensures c in LiveKids(nodes, a) && a in nodes && nodes[a].body.Element? && nodes[c].tomb.None?
  {
    ParentBefore(nodes, order, c);
  }

  lemma {:induction false} GainAtParent(nodes: Nodes, order: seq<OpId>, nodes': Nodes, order': seq<OpId>, p: OpId,
      touched: set<OpId>, gain: nat, a: OpId, c: OpId)
    requires Framed(nodes, order, nodes', order', p, touched) && a in nodes && a in nodes' && a !in touched && a != p
    requires nodes[a].body.Element? && nodes'[a].body.Element? && c in LiveKids(nodes, a) && c in nodes && c in nodes'
        && Above(nodes, order, c, p)
    requires |RenderAt(nodes', order', c)| == |RenderAt(nodes, order, c)| + gain
    ensures |RenderAt(nodes', order', a)| == |RenderAt(nodes, order, a)| + gain
  {
    hide Framed, KidsIn, Rooted, Height, LiveKids, RenderKids, Above;
    FramedAt(nodes, order, nodes', order', p, touched, a);
    FramedRooted(nodes, order, nodes', order', p, touched);
    var kids := KidsIn(nodes, order, a);
    KidsInAreKids(nodes, order, a);
    assert c in Elements(kids);
    var i := IndexOf(kids, c);
    var x, y := kids[..i], kids[i + 1..];
    assert kids == x + [c] + y;
    KidParent(nodes, order, a, c);
    forall k | k in x || k in y ensures !Above(nodes, order, k, p) && k in kids {
      DistinctParts(x, c, y, k);
      KidParent(nodes, order, a, k);
      if Above(nodes, order, k, p) { OneWayDown(nodes, order, c, k, p); }
    }
    RenderKidsThree(nodes, order, a, x, [c], y);
    RenderKidsThree(nodes', order', a, x, [c], y);
    BesideChangeKids(nodes, order, nodes', order', p, touched, a, x);
    BesideChangeKids(nodes, order, nodes', order', p, touched, a, y);
    OneKid(nodes, order, a, c);
    OneKid(nodes', order', a, c);
  }

  lemma {:induction false} OneKid(nodes: Nodes, order: seq<OpId>, p: OpId, k: OpId)
    requires Rooted(nodes, order) && p in nodes && k in LiveKids(nodes, p)
    ensures k in nodes && RenderKids(nodes, order, p, [k]) == RenderAt(nodes, order, k)
  {
    KidIsLower(nodes, order, p, k);
    assert [k][1..] == [];
  }

  /** A deleted leaf's tail is appended behind the live children of its parent. */
  lemma {:induction false} DeadSplitAppends(t: Tree, n: OpId, p: OpId, at: int)
    requires WellFormed(t) && NodesClocked(t) && ProperKeys(t.nodes)
    requires n in t.nodes && t.nodes[n].body.Leaf? && t.nodes[n].parent == Some(p) && t.nodes[n].tomb.Some?
    requires 0 <= at <= |t.nodes[n].body.text|
    ensures p in t.nodes && Split(t, n, at).Some? && p in Split(t, n, at).value.nodes
    ensures var r := Split(t, n, at).value;
            WellFormed(r) && Framed(t.nodes, t.order, r.nodes, r.order, p, {n}) && r.nodes[p].body == t.nodes[p].body
            && (t.nodes[p].body.Element? ==>
                  RenderAt(r.nodes, r.order, p) == RenderAt(t.nodes, t.order, p) + t.nodes[n].body.text[at..])
  {
    hide Rooted, KidsIn, Room, KeyAfter, Proper, ProperKeys, Spaced, Framed, Split, RenderKids, LiveKids;
    var kids := Children(t, p);
    DeadIsNoKid(t, n, p);
    SplitShape(t, n, p, at);
    SplitFramed(t, n, p, at);
    SplitLands(t, n, p, at);
    var r, m := Split(t, n, at).value, NextId(t);
    FramedRooted(t.nodes, t.order, r.nodes, r.order, p, {n});
    assert Children(r, p) == kids + [m] + [];
    assert kids == kids + [] + [];
    KidsInAreKids(t.nodes, t.order, p);
    KidsInAreKids(r.nodes, r.order, p);
    RenderKidsThree(r.nodes, r.order, p, kids, [m], []);
    forall k | k in kids ensures k in t.nodes && k !in {n} { KidIsNode(t, p, k); }
    RenderFrameKids(t.nodes, t.order, r.nodes, r.order, p, {n}, p, kids);
    LiveIn(r, p, m);
    OneLeaf(r.nodes, r.order, p, m);
    NoKids(r.nodes, r.order, p);
  }

  lemma {:induction false} NoKids(nodes: Nodes, order: seq<OpId>, p: OpId)
    requires Rooted(nodes, order) && p in nodes
    ensures RenderKids(nodes, order, p, []) == ""
  {
  }

  lemma {:induction false} DeadIsNoKid(t: Tree, n: OpId, p: OpId)
    requires WellFormed(t) && n in t.nodes && t.nodes[n].tomb.Some?
    ensures n !in Children(t, p) && Room(t, p, Slot(Children(t, p), Some(n)))
  {
    hide Rooted, KidsIn;
    KidsInAreKids(t.nodes, t.order, p);
  }

  /** Splitting a deleted leaf keeps the text if and only if the tail is empty or its
      parent is not shown as an element. */
  lemma {:induction false} DeadSplitKeepsTextIff(t: Tree, n: OpId, p: OpId, at: int)
    requires WellFormed(t) && NodesClocked(t) && ProperKeys(t.nodes)
    requires n in t.nodes && t.nodes[n].body.Leaf? && t.nodes[n].parent == Some(p) && t.nodes[n].tomb.Some?
    requires 0 <= at <= |t.nodes[n].body.text|
    ensures Split(t, n, at).Some? && WellFormed(Split(t, n, at).value) && p in t.nodes
    ensures Render(Split(t, n, at).value) == Render(t)
            <==> at == |t.nodes[n].body.text| || t.nodes[p].body.Leaf? || !Shown(t.nodes, t.order, p)
  {
    hide Rooted, KidsIn, Proper, ProperKeys, Framed, Split, RenderKids, LiveKids, Shown, Height;
    DeadSplitAppends(t, n, p, at);
    var r := Split(t, n, at).value;
    RootIsThere(t);
    ParentIsThere(t, n, p);
    var tail := t.nodes[n].body.text[at..];
    if at == |t.nodes[n].body.text| || t.nodes[p].body.Leaf? {
      assert RenderAt(r.nodes, r.order, p) == RenderAt(t.nodes, t.order, p);
      RenderFrame(t.nodes, t.order, r.nodes, r.order, p, {n}, ROOT);
    } else if !Shown(t.nodes, t.order, p) {
      RootShown(t);
      HiddenChange(t.nodes, t.order, r.nodes, r.order, p, {n}, ROOT);
    } else {
      RootAbove(t.nodes, t.order, p);
      GainClimbs(t.nodes, t.order, r.nodes, r.order, p, {n}, |tail|, ROOT);
    }
  }

  lemma {:induction false} RootShown(t: Tree)
    requires WellFormed(t)
    ensures ROOT in t.nodes && Shown(t.nodes, t.order, ROOT)
  {
  }

  /** Create a leaf under a root without children, delete it, split the deleted leaf: the
      text was empty and becomes the tail. */
  lemma {:induction false} DeadSplitBringsBack(e: Tree) returns (t: Tree, n: OpId)
    requires e == EmptyTree(e.peer)
    ensures WellFormed(e) && Created(e, ROOT, None, Leaf(Token, "ab")).Some?
    ensures n == NextId(e) && Buried(Created(e, ROOT, None, Leaf(Token, "ab")).value, n) == Some(t)
    ensures WellFormed(t) && Split(t, n, 1).Some? && WellFormed(Split(t, n, 1).value)
    ensures Render(t) == "" && Render(Split(t, n, 1).value) == "b"
  {
    EmptyKids(e.peer);
    t := DeadLeaf(e, Leaf(Token, "ab"));
    n := NextId(e);
    hide Rooted, KidsIn, ProperKeys, Framed, Split, RenderKids, LiveKids, Created, Buried;
    RootIsThere(t);
    ReadsNothing(t);
    DeadSplitAppends(t, n, ROOT, 1);
  }

  lemma {:induction false} DeadLeaf(e: Tree, body: Body) returns (t: Tree)
    requires WellFormed(e) && NodesClocked(e) && ProperKeys(e.nodes) && ROOT in e.nodes && Children(e, ROOT) == []
    ensures Created(e, ROOT, None, body).Some?
    ensures Buried(Created(e, ROOT, None, body).value, NextId(e)) == Some(t)
    ensures WellFormed(t) && NodesClocked(t) && ProperKeys(t.nodes) && Children(t, ROOT) == []
    ensures var n := NextId(e);
            n in t.nodes && t.nodes[n].tomb.Some? && t.nodes[n].parent == Some(ROOT) && t.nodes[n].body == body
  {
    hide Rooted, KidsIn, ProperKeys, KeyAfter, ObservedIn, NodesClocked;
    var n := NextId(e);
    CreatedLands(e, ROOT, None, body);
    CreatedShape(e, ROOT, None, body);
    var c := Created(e, ROOT, None, body).value;
    assert Children(c, ROOT) == [n];
    assert n != ROOT;
    BuriedLeaves(c, n, ROOT);
    t := Buried(c, n).value;
    assert Lift([n], n) == [];
  }

  lemma {:induction false} NoElements(s: seq<OpId>)
    ensures Elements(s) == {} <==> s == []
  {
    if s != [] { assert s[0] in Elements(s); }
  }

  lemma {:induction false} EmptyKids(peer: nat)
    ensures WellFormed(EmptyTree(peer)) && Children(EmptyTree(peer), ROOT) == []
  {
    var t := EmptyTree(peer);
    assert IndexOf(t.order, ROOT) == 0;
    KidsInAreKids(t.nodes, t.order, ROOT);
    assert LiveKids(t.nodes, ROOT) == {};
    hide KidsIn;
    NoElements(Children(t, ROOT));
  }

  lemma {:induction false} ReadsNothing(t: Tree)
    requires WellFormed(t) && Children(t, ROOT) == []
    ensures Render(t) == ""
  {
    hide KidsIn;
    NoKids(t.nodes, t.order, ROOT);
  }

  /** A split op whose new id is taken still cuts the leaf: its tail goes nowhere. */
  lemma {:induction false} TakenIdLosesTail(t: Tree, op: Op)
    requires op.kind.SplitLeaf? && op.kind.leaf in t.nodes && t.nodes[op.kind.leaf].body.Leaf?
    requires op.kind.made in t.nodes && op.kind.made != op.kind.leaf
    ensures var r := Applied(t, op); var leaf := t.nodes[op.kind.leaf];
            && r.order == t.order && r.nodes.Keys == t.nodes.Keys
            && (forall n :: n in t.nodes && n != op.kind.leaf ==> r.nodes[n] == t.nodes[n])
            && r.nodes[op.kind.leaf].body
               == Leaf(leaf.body.leafKind, if op.kind.atChar < |leaf.body.text| then leaf.body.text[..op.kind.atChar]
                                           else leaf.body.text)
  {
  }
}
