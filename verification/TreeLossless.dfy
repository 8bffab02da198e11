/** Losslessness of structure edits: splitting a live leaf and merging adjacent leaves keep
    the rendered text, and runs of one replica keep siblings apart. */
module TreeLossless {
  import opened Wrappers
  import opened Sequences
  import opened Bytes
  import opened FractionalKeys
  import opened VersionFrontier
  import opened TreeState
  import opened TreeConvergence
  import opened TreeAgreement
  import opened TreePlacement

  // ----- rendering under a local change -----

  lemma {:induction false} RenderKidsAppend(nodes: Nodes, order: seq<OpId>, n: OpId, a: seq<OpId>, b: seq<OpId>)
    requires Rooted(nodes, order) && n in nodes
    requires forall k :: k in a ==> k in LiveKids(nodes, n)
    requires forall k :: k in b ==> k in LiveKids(nodes, n)
    ensures RenderKids(nodes, order, n, a + b) == RenderKids(nodes, order, n, a) + RenderKids(nodes, order, n, b)
    decreases |a|
  {
    hide Rooted, LiveKids, RenderAt;
    if a == [] {
      assert a + b == b;
    } else {
      KidIsLower(nodes, order, n, a[0]);
      assert (a + b)[0] == a[0] && (a + b)[1..] == a[1..] + b;
      RenderKidsAppend(nodes, order, n, a[1..], b);
    }
  }

  /** The two forests differ only at the children of `p` and in the bodies of `touched`. */
  ghost predicate Framed(nodes: Nodes, order: seq<OpId>, nodes': Nodes, order': seq<OpId>, p: OpId,
    touched: set<OpId>)
  {
    && Rooted(nodes, order) && Rooted(nodes', order') && nodes.Keys <= nodes'.Keys
    && p in nodes && p !in touched
    && (forall m :: m in nodes && m !in touched ==> nodes'[m].body == nodes[m].body)
    && (forall m :: m in nodes && m != p ==>
          KidsIn(nodes', order', m) == KidsIn(nodes, order, m) && Elements(KidsIn(nodes, order, m)) !! touched)
  }

  lemma {:induction false} FramedAt(nodes: Nodes, order: seq<OpId>, nodes': Nodes, order': seq<OpId>, p: OpId,
      touched: set<OpId>, m: OpId)
    requires Framed(nodes, order, nodes', order', p, touched) && m in nodes && m !in touched
    ensures m in nodes' && nodes'[m].body == nodes[m].body
    ensures m != p ==> KidsIn(nodes', order', m) == KidsIn(nodes, order, m)
    ensures m != p ==> forall k :: k in KidsIn(nodes, order, m) ==>
              k in nodes && k !in touched && k in LiveKids(nodes, m) && k in LiveKids(nodes', m)
  {
    hide Rooted, KidsIn;
    KidsInAreKids(nodes, order, m);
    KidsInAreKids(nodes', order', m);
    forall k | m != p && k in KidsIn(nodes, order, m)
      ensures k in nodes && k !in touched && k in LiveKids(nodes, m) && k in LiveKids(nodes', m)
    {
      assert k in Elements(KidsIn(nodes, order, m));
    }
  }

  /** Everything below `p` renders as before, and if `p` does, so does everything else. */
  lemma {:induction false} RenderFrame(nodes: Nodes, order: seq<OpId>, nodes': Nodes, order': seq<OpId>, p: OpId,
      touched: set<OpId>, n: OpId)
    requires Framed(nodes, order, nodes', order', p, touched) && n in nodes && n !in touched
    requires Height(order, n) < Height(order, p) || RenderAt(nodes', order', p) == RenderAt(nodes, order, p)
    ensures RenderAt(nodes', order', n) == RenderAt(nodes, order, n)
    decreases Height(order, n), 1, 0
  {
    hide Framed, KidsIn, Rooted, LiveKids, Height;
    FramedAt(nodes, order, nodes', order', p, touched, n);
    if n != p && nodes[n].body.Element? {
      RenderFrameKids(nodes, order, nodes', order', p, touched, n, KidsIn(nodes, order, n));
    }
  }

  lemma {:induction false} RenderFrameKids(nodes: Nodes, order: seq<OpId>, nodes': Nodes, order': seq<OpId>, p: OpId,
      touched: set<OpId>, n: OpId, kids: seq<OpId>)
    requires Framed(nodes, order, nodes', order', p, touched) && n in nodes && n !in touched
    requires Height(order, n) <= Height(order, p) || RenderAt(nodes', order', p) == RenderAt(nodes, order, p)
    requires forall k :: k in kids ==>
               k in nodes && k !in touched && k in LiveKids(nodes, n) && k in LiveKids(nodes', n)
    ensures RenderKids(nodes', order', n, kids) == RenderKids(nodes, order, n, kids)
    decreases Height(order, n), 0, |kids|
  {
    hide Framed, KidsIn, LiveKids, Rooted, Height, RenderAt;
    FramedAt(nodes, order, nodes', order', p, touched, n);
    assert Rooted(nodes, order) && Rooted(nodes', order') by { FramedRooted(nodes, order, nodes', order', p, touched); }
    if kids != [] {
      KidIsLower(nodes, order, n, kids[0]);
      KidIsLower(nodes', order', n, kids[0]);
      RenderFrame(nodes, order, nodes', order', p, touched, kids[0]);
      RenderFrameKids(nodes, order, nodes', order', p, touched, n, kids[1..]);
    }
  }

  lemma {:induction false} FramedRooted(nodes: Nodes, order: seq<OpId>, nodes': Nodes, order': seq<OpId>, p: OpId,
      touched: set<OpId>)
    requires Framed(nodes, order, nodes', order', p, touched)
    ensures Rooted(nodes, order) && Rooted(nodes', order') && p in nodes && p in nodes' && p !in touched
        && nodes'[p].body == nodes[p].body
  {
  }

  /** If the children of `p` still spell the same text, the whole tree does. */
  lemma {:induction false} SameTextEverywhere(t: Tree, r: Tree, p: OpId, touched: set<OpId>)
    requires Framed(t.nodes, t.order, r.nodes, r.order, p, touched) && ROOT in t.nodes && ROOT !in touched
    requires forall k :: k in Children(t, p) ==> k in LiveKids(t.nodes, p)
    requires forall k :: k in Children(r, p) ==> k in LiveKids(r.nodes, p)
    requires p in r.nodes && RenderKids(r.nodes, r.order, p, Children(r, p))
        == RenderKids(t.nodes, t.order, p, Children(t, p))
    ensures Render(r) == Render(t)
  {
    hide Framed, Rooted, LiveKids, KidsIn;
    FramedRooted(t.nodes, t.order, r.nodes, r.order, p, touched);
    RenderFrame(t.nodes, t.order, r.nodes, r.order, p, touched, ROOT);
  }

  // ----- splitting a live leaf -----

  /** The records and the order after a split. */
  lemma {:induction false} SplitShape(t: Tree, n: OpId, p: OpId, at: int)
    requires WellFormed(t) && NodesClocked(t) && n in t.nodes && t.nodes[n].body.Leaf? && t.nodes[n].parent == Some(p)
    requires 0 <= at <= |t.nodes[n].body.text|
    ensures Split(t, n, at).Some?
    ensures var r := Split(t, n, at).value; var m := NextId(t); var rec := t.nodes[n]; var kind := rec.body.leafKind;
            WellFormed(r) && NodesClocked(r) && m !in t.nodes && m != n && r.order == t.order + [m]
            && r.nodes == t.nodes[n := rec.(body := Leaf(kind, rec.body.text[..at]), textHead := m)]
                                 [m := Node(Some(p), KeyAfter(t, p, Some(n)), m, Leaf(kind, rec.body.text[at..]),
                                     None, ROOT)]
  {
    hide Rooted, KeyAfter, ObservedIn;
    var m, rec := NextId(t), t.nodes[n];
    var cut := SplitAt(rec.body.text, at);
    assert rec.body.text[..cut] == rec.body.text[..at] && rec.body.text[cut..] == rec.body.text[at..];
    var rec' := rec.(body := Leaf(rec.body.leafKind, rec.body.text[..at]), textHead := m);
    EditedRooted(t.nodes, t.order, n, rec');
    ParentIsThere(t, n, p);
    GrownRooted(t.nodes[n := rec'], t.order, m,
        Node(Some(p), KeyAfter(t, p, Some(n)), m, Leaf(rec.body.leafKind, rec.body.text[at..]), None, ROOT));
  }

  lemma {:induction false} ParentIsThere(t: Tree, n: OpId, p: OpId)
    requires WellFormed(t) && n in t.nodes && t.nodes[n].parent == Some(p)
    ensures p in t.nodes && p != n && n != ROOT
  {
    assert BehindParent(t.nodes, t.order, n);
    assert p in Elements(t.order);
  }

  /** Changing a body moves nobody. */
  lemma {:induction false} RewrittenKids(t: Tree, n: OpId, rec: Node, s: Tree)
    requires WellFormed(t) && WellFormed(s) && n in t.nodes && SamePlace(t.nodes[n], rec)
    requires s.nodes == t.nodes[n := rec] && s.order == t.order
    ensures forall q :: Children(s, q) == Children(t, q) && LiveKids(s.nodes, q) == LiveKids(t.nodes, q)
    ensures ProperKeys(t.nodes) ==> ProperKeys(s.nodes)
    ensures Spaced(t.nodes) ==> Spaced(s.nodes)
  {
    hide Rooted, KidsIn, Proper;
    forall q ensures Children(s, q) == Children(t, q) && LiveKids(s.nodes, q) == LiveKids(t.nodes, q) {
      assert LiveKids(s.nodes, q) == LiveKids(t.nodes, q);
      KidsStay(t.nodes, t.order, s.nodes, s.order, q);
    }
  }

  /** The new leaf of a split appears at the slot behind the split one. */
  lemma {:induction false} SplitLands(t: Tree, n: OpId, p: OpId, at: int)
    requires WellFormed(t) && NodesClocked(t) && ProperKeys(t.nodes)
    requires n in t.nodes && t.nodes[n].body.Leaf? && t.nodes[n].parent == Some(p) && 0 <= at <= |t.nodes[n].body.text|
    requires Room(t, p, Slot(Children(t, p), Some(n)))
    ensures var r := Split(t, n, at).value; var kids := Children(t, p); var i := Slot(kids, Some(n));
            ProperKeys(r.nodes) && i <= |kids| && Children(r, p) == Insert(kids, i, NextId(t))
            && (forall q :: q != p ==> Children(r, q) == Children(t, q))
            && (Spaced(t.nodes) ==> Spaced(r.nodes))
  {
    hide Rooted, KidsIn, Room, Split, BytesLess, KeyAfter, Proper, ProperKeys, Spaced, LiveKids;
    SplitShape(t, n, p, at);
    ParentIsThere(t, n, p);
    KeyAfterSeparates(t, p, Some(n));
    var r, m := Split(t, n, at).value, NextId(t);
    var rec := t.nodes[n].(body := r.nodes[n].body, textHead := m);
    var s := t.(nodes := t.nodes[n := rec]);
    EditedRooted(t.nodes, t.order, n, rec);
    RewrittenKids(t, n, rec, s);
    var i := Slot(Children(t, p), Some(n));
    forall k | k in Children(t, p) ensures k in t.nodes ==> s.nodes[k].sort == t.nodes[k].sort {
    }
    GrownLands(s, p, i, m, r.nodes[m], r);
  }

  lemma {:induction false} RenderKidsThree(nodes: Nodes, order: seq<OpId>, p: OpId, a: seq<OpId>, mid: seq<OpId>,
      b: seq<OpId>)
    requires Rooted(nodes, order) && p in nodes
    requires forall k :: k in a + mid + b ==> k in LiveKids(nodes, p)
    ensures forall k :: k in a ==> k in LiveKids(nodes, p)
    ensures forall k :: k in mid ==> k in LiveKids(nodes, p)
    ensures forall k :: k in b ==> k in LiveKids(nodes, p)
    ensures RenderKids(nodes, order, p, a + mid + b)
            == RenderKids(nodes, order, p, a) + RenderKids(nodes, order, p, mid) + RenderKids(nodes, order, p, b)
  {
    hide Rooted, LiveKids, RenderKids;
    forall k | k in a || k in mid || k in b ensures k in a + mid + b {
    }
    RenderKidsAppend(nodes, order, p, a + mid, b);
    RenderKidsAppend(nodes, order, p, a, mid);
  }

  /** Replacing one stretch of children by another that spells the same keeps the text of
      their parent. */
  lemma {:induction false} SameSpelling(t: Tree, r: Tree, p: OpId, touched: set<OpId>, a: seq<OpId>, mid: seq<OpId>,
      mid': seq<OpId>, b: seq<OpId>)
    requires Framed(t.nodes, t.order, r.nodes, r.order, p, touched) && p in r.nodes
    requires Children(t, p) == a + mid + b && Children(r, p) == a + mid' + b
    requires forall k :: k in a || k in b ==> k !in touched
    requires forall k :: k in mid ==> k in LiveKids(t.nodes, p)
    requires forall k :: k in mid' ==> k in LiveKids(r.nodes, p)
    requires RenderKids(t.nodes, t.order, p, mid) == RenderKids(r.nodes, r.order, p, mid')
    ensures forall k :: k in Children(t, p) ==> k in LiveKids(t.nodes, p)
    ensures forall k :: k in Children(r, p) ==> k in LiveKids(r.nodes, p)
    ensures RenderKids(r.nodes, r.order, p, Children(r, p)) == RenderKids(t.nodes, t.order, p, Children(t, p))
  {
    hide Rooted, KidsIn, LiveKids, Framed, Height, RenderKids;
    FramedRooted(t.nodes, t.order, r.nodes, r.order, p, touched);
    KidsInAreKids(t.nodes, t.order, p);
    KidsInAreKids(r.nodes, r.order, p);
    RenderKidsThree(t.nodes, t.order, p, a, mid, b);
    RenderKidsThree(r.nodes, r.order, p, a, mid', b);
    forall k | k in a || k in b ensures k in t.nodes { KidIsNode(t, p, k); }
    RenderFrameKids(t.nodes, t.order, r.nodes, r.order, p, touched, p, a);
    RenderFrameKids(t.nodes, t.order, r.nodes, r.order, p, touched, p, b);
  }

  /** Two leaves side by side spell their texts in turn. */
  lemma {:induction false} TwoLeaves(nodes: Nodes, order: seq<OpId>, p: OpId, x: OpId, y: OpId)
    requires Rooted(nodes, order) && p in nodes && x in LiveKids(nodes, p) && y in LiveKids(nodes, p)
    requires x in nodes && nodes[x].body.Leaf? && y in nodes && nodes[y].body.Leaf?
    ensures RenderKids(nodes, order, p, [x, y]) == nodes[x].body.text + nodes[y].body.text
  {
    hide Rooted, LiveKids;
    assert [x, y] == [x] + [y];
    RenderKidsAppend(nodes, order, p, [x], [y]);
    OneLeaf(nodes, order, p, x);
    OneLeaf(nodes, order, p, y);
  }

  lemma {:induction false} LiveIn(t: Tree, p: OpId, n: OpId)
    requires WellFormed(t) && n in t.nodes && t.nodes[n].parent == Some(p) && t.nodes[n].tomb.None?
    ensures n in LiveKids(t.nodes, p) && n in Children(t, p)
  {
    hide Rooted, KidsIn;
    KidsInAreKids(t.nodes, t.order, p);
    assert n in Elements(Children(t, p));
  }

  lemma {:induction false} KidIsNode(t: Tree, p: OpId, k: OpId)
    requires k in LiveKids(t.nodes, p)
    ensures k in t.nodes
  {
  }

  lemma {:induction false} OneLeaf(nodes: Nodes, order: seq<OpId>, p: OpId, k: OpId)
    requires Rooted(nodes, order) && p in nodes && k in LiveKids(nodes, p) && k in nodes && nodes[k].body.Leaf?
    ensures RenderKids(nodes, order, p, [k]) == nodes[k].body.text
  {
    KidIsLower(nodes, order, p, k);
    assert [k][1..] == [];
  }

  lemma {:induction false} DistinctParts(a: seq<OpId>, n: OpId, b: seq<OpId>, k: OpId)
    requires Distinct(a + [n] + b) && (k in a || k in b)
    ensures k != n
  {
    var s := a + [n] + b;
    assert s[|a|] == n;
    if k in a {
      var i :| 0 <= i < |a| && a[i] == k;
      assert s[i] == k;
    } else {
      var i :| 0 <= i < |b| && b[i] == k;
      assert s[|a| + 1 + i] == k;
    }
  }

  lemma {:induction false} SplitFramed(t: Tree, n: OpId, p: OpId, at: int)
    requires WellFormed(t) && NodesClocked(t) && ProperKeys(t.nodes)
    requires n in t.nodes && t.nodes[n].body.Leaf? && t.nodes[n].parent == Some(p) && 0 <= at <= |t.nodes[n].body.text|
    requires Room(t, p, Slot(Children(t, p), Some(n)))
    ensures Split(t, n, at).Some? && p in t.nodes && ROOT in t.nodes && n != ROOT
    ensures Framed(t.nodes, t.order, Split(t, n, at).value.nodes, Split(t, n, at).value.order, p, {n})
  {
    hide Rooted, KidsIn, Room, KeyAfter, Proper, ProperKeys, Spaced, Split;
    SplitShape(t, n, p, at);
    ParentIsThere(t, n, p);
    SplitLands(t, n, p, at);
    var r := Split(t, n, at).value;
    RootIsThere(t);
    forall q | q in t.nodes && q != p
      ensures KidsIn(r.nodes, r.order, q) == KidsIn(t.nodes, t.order, q) && Elements(KidsIn(t.nodes, t.order, q)) !! {n}
    {
      assert Children(r, q) == Children(t, q);
      KidsInAreKids(t.nodes, t.order, q);
    }
  }

  /** Splitting a live leaf keeps the text of the whole tree, wherever the cut falls. */
  lemma {:induction false} SplitKeepsText(t: Tree, n: OpId, p: OpId, at: int)
    requires WellFormed(t) && NodesClocked(t) && ProperKeys(t.nodes)
    requires n in t.nodes && t.nodes[n].body.Leaf? && t.nodes[n].parent == Some(p) && t.nodes[n].tomb.None?
    requires 0 <= at <= |t.nodes[n].body.text|
    requires Room(t, p, Slot(Children(t, p), Some(n)))
    ensures Split(t, n, at).Some? && WellFormed(Split(t, n, at).value) && Render(Split(t, n, at).value) == Render(t)
  {
    hide Rooted, KidsIn, Room, KeyAfter, Proper, ProperKeys, Spaced, Framed, Split, Insert, NodesClocked;
    SplitShape(t, n, p, at);
    SplitFramed(t, n, p, at);
    SplitLands(t, n, p, at);
    hide LiveKids, RenderKids, RenderAt;
    var r, m, kids := Split(t, n, at).value, NextId(t), Children(t, p);
    KidsInAreKids(t.nodes, t.order, p);
    assert n in Elements(kids);
    var i := IndexOf(kids, n);
    var a, b := kids[..i], kids[i + 1..];
    SplitPieces(kids, i, m);
    var text := t.nodes[n].body.text;
    assert text == text[..at] + text[at..];
    FramedRooted(t.nodes, t.order, r.nodes, r.order, p, {n});
    forall k | k in a || k in b ensures k !in {n} { DistinctParts(a, n, b, k); }
    LiveIn(t, p, n);
    LiveIn(r, p, n);
    LiveIn(r, p, m);
    OneLeaf(t.nodes, t.order, p, n);
    TwoLeaves(r.nodes, r.order, p, n, m);
    SameSpelling(t, r, p, {n}, a, [n], [n, m], b);
    SameTextEverywhere(t, r, p, {n});
  }

  // ----- merging adjacent leaves -----

  lemma {:induction false} SplitPieces(kids: seq<OpId>, i: nat, m: OpId)
    requires i < |kids|
    ensures kids == kids[..i] + [kids[i]] + kids[i + 1..]
    ensures Insert(kids, i + 1, m) == kids[..i] + [kids[i], m] + kids[i + 1..]
  {
  }

  lemma {:induction false} MergePieces(kids: seq<OpId>, i: nat)
    requires i + 1 < |kids| && Distinct(kids)
    ensures kids == kids[..i] + [kids[i], kids[i + 1]] + kids[i + 2..]
    ensures kids[i + 1] in kids && Lift(kids, kids[i + 1]) == kids[..i] + [kids[i]] + kids[i + 2..]
  {
    DistinctIndex(kids, i + 1);
  }

  /** The records after a merge. */
  lemma {:induction false} MergeShape(t: Tree, x: OpId, y: OpId, p: OpId)
    requires WellFormed(t) && NodesClocked(t) && Merged(t, x, y).Some? && x in t.nodes && t.nodes[x].parent == Some(p)
    ensures Follows(Children(t, p), x, y) && x != y && y in t.nodes && t.nodes[x].body.Leaf? && t.nodes[y].body.Leaf?
    ensures x in LiveKids(t.nodes, p) && y in LiveKids(t.nodes, p) && t.nodes[x].tomb.None?
    ensures var r := Merged(t, x, y).value; var m := NextId(t);
            var joined := t.nodes[x].body.text + t.nodes[y].body.text;
            WellFormed(r) && NodesClocked(r) && r.order == t.order
            && r.nodes == t.nodes[x := t.nodes[x].(body := Leaf(t.nodes[x].body.leafKind, joined), textHead := m)]
                                 [y := Entombed(t.nodes[y], m)]
  {
    hide Rooted, KidsIn, ObservedIn;
    KidsInAreKids(t.nodes, t.order, p);
    var kids := Children(t, p);
    var i := IndexOf(kids, x);
    assert kids[i] == x && kids[i + 1] == y;
    assert y in kids;
    var m := NextId(t);
    var rec := t.nodes[x].(body := Leaf(t.nodes[x].body.leafKind, t.nodes[x].body.text + t.nodes[y].body.text),
        textHead := m);
    EditedRooted(t.nodes, t.order, x, rec);
    EditedRooted(t.nodes[x := rec], t.order, y, Entombed(t.nodes[y], m));
  }

  /** Of the children, a merge takes out the right leaf only. */
  lemma {:induction false} MergeLands(t: Tree, x: OpId, y: OpId, p: OpId)
    requires WellFormed(t) && NodesClocked(t) && ProperKeys(t.nodes) && Merged(t, x, y).Some? && x in t.nodes
        && t.nodes[x].parent == Some(p)
    ensures var r := Merged(t, x, y).value;
            y in Children(t, p) && Children(r, p) == Lift(Children(t, p), y)
            && (forall q :: q != p ==> Children(r, q) == Children(t, q))
            && ProperKeys(r.nodes) && (Spaced(t.nodes) ==> Spaced(r.nodes))
  {
    hide Rooted, KidsIn, Proper, Merged;
    MergeShape(t, x, y, p);
    var r := Merged(t, x, y).value;
    EntombedKids(t, y, p, r);
    KidsInAreKids(t.nodes, t.order, p);
    assert y in Elements(Children(t, p));
    forall n | n in r.nodes && n != ROOT
      ensures Proper(r.nodes[n].sort.frac)
    {
      assert r.nodes[n].sort == t.nodes[n].sort;
    }
    assert forall n :: n in r.nodes && r.nodes[n].tomb.None? ==> n in t.nodes && SamePlace(t.nodes[n], r.nodes[n]);
  }

  lemma {:induction false} MergeFramed(t: Tree, x: OpId, y: OpId, p: OpId)
    requires WellFormed(t) && NodesClocked(t) && ProperKeys(t.nodes) && Merged(t, x, y).Some? && x in t.nodes
        && t.nodes[x].parent == Some(p)
    ensures p in t.nodes && ROOT in t.nodes && x != ROOT && y != ROOT
    ensures Framed(t.nodes, t.order, Merged(t, x, y).value.nodes, Merged(t, x, y).value.order, p, {x, y})
  {
    hide Rooted, KidsIn, Proper, ProperKeys, Spaced, Merged;
    MergeShape(t, x, y, p);
    ParentIsThere(t, x, p);
    ParentIsThere(t, y, p);
    MergeLands(t, x, y, p);
    var r := Merged(t, x, y).value;
    RootIsThere(t);
    forall q | q in t.nodes && q != p
      ensures KidsIn(r.nodes, r.order, q) == KidsIn(t.nodes, t.order, q)
      ensures Elements(KidsIn(t.nodes, t.order, q)) !! {x, y}
    {
      assert Children(r, q) == Children(t, q);
      KidsInAreKids(t.nodes, t.order, q);
    }
  }

  /** Merging two adjacent live leaves keeps the text of the whole tree. */
  lemma {:induction false} MergeKeepsText(t: Tree, x: OpId, y: OpId, p: OpId)
    requires WellFormed(t) && NodesClocked(t) && ProperKeys(t.nodes) && Merged(t, x, y).Some? && x in t.nodes
        && t.nodes[x].parent == Some(p)
    ensures WellFormed(Merged(t, x, y).value) && Render(Merged(t, x, y).value) == Render(t)
  {
    hide Rooted, KidsIn, Proper, ProperKeys, Spaced, Framed, Merged, LiveKids, RenderKids, RenderAt, IndexOf, Lift,
        NodesClocked;
    MergeShape(t, x, y, p);
    MergeFramed(t, x, y, p);
    MergeLands(t, x, y, p);
    var r, kids := Merged(t, x, y).value, Children(t, p);
    var i :| 0 <= i < |kids| - 1 && kids[i] == x && kids[i + 1] == y;
    var a, b := kids[..i], kids[i + 2..];
    KidsInAreKids(t.nodes, t.order, p);
    MergePieces(kids, i);
    FramedRooted(t.nodes, t.order, r.nodes, r.order, p, {x, y});
    PairDistinct(a, x, y, b);
    TwoLeaves(t.nodes, t.order, p, x, y);
    LiveIn(r, p, x);
    OneLeaf(r.nodes, r.order, p, x);
    SameSpelling(t, r, p, {x, y}, a, [x, y], [x], b);
    SameTextEverywhere(t, r, p, {x, y});
  }

  lemma {:induction false} PairDistinct(a: seq<OpId>, x: OpId, y: OpId, b: seq<OpId>)
    requires Distinct(a + [x, y] + b)
    ensures forall k :: k in a || k in b ==> k !in {x, y}
  {
    var s := a + [x, y] + b;
    assert s == a + [x] + ([y] + b) == (a + [x]) + [y] + b;
    forall k | k in a || k in b ensures k != x && k != y {
      if k in a {
        DistinctParts(a, x, [y] + b, k);
        assert k in a + [x];
        DistinctParts(a + [x], y, b, k);
      } else {
        assert k in [y] + b;
        DistinctParts(a, x, [y] + b, k);
        DistinctParts(a + [x], y, b, k);
      }
    }
  }
}
