/** What two replicas of the lossless tree CRDT agree on, and what one anti-entropy
    exchange achieves. */
module TreeAgreement {
  import opened Wrappers
  import opened Sequences
  import opened FractionalKeys
  import opened VersionFrontier
  import opened TreeState
  import opened TreeConvergence

  // ----- the applied set -----

  /** What one replica applied, another one that knows these ops has applied too. */
  lemma {:induction false} AppliedEverywhere(log: seq<Op>, b: Tree)
    requires Supported(log) && Coherent(b) && Elements(log) <= Known(b)
    ensures Elements(log) <= Elements(b.log)
  {
    hide NodeIs, Denotes, Rooted, Has;
    for i := 0 to |log|
      invariant forall j :: 0 <= j < i ==> log[j] in b.log
    {
      var op := log[i];
      assert op in Elements(log);
      assert Needs(op) in b.nodes by {
        if Needs(op) != ROOT {
          var c :| c in log[..i] && c.kind.CreateNode? && c.id == Needs(op);
          assert c in b.log;
          assert HasCreate(b.log, Needs(op));
        }
      }
      assert Ready(b, op);
    }
  }

  /** The applied set contains every known op whose target is there ... */
  lemma {:induction false} AppliedIsClosed(t: Tree, op: Op)
    requires Coherent(t) && op in Known(t) && (Needs(op) == ROOT || HasCreate(t.log, Needs(op)))
    ensures op in t.log
  {
    hide NodeIs, Denotes, Rooted, Has;
    assert Needs(op) in t.nodes;
    assert Ready(t, op);
  }

  /** ... and is the least such set. */
  lemma {:induction false} AppliedIsLeast(t: Tree, closed: set<Op>)
    requires Coherent(t)
    requires forall op :: op in Known(t) ==>
             Needs(op) == ROOT || (exists c :: c in closed && c.kind.CreateNode? && c.id == Needs(op)) ==> op in closed
    ensures Elements(t.log) <= closed
  {
    hide NodeIs, Denotes, Rooted, Has;
    for i := 0 to |t.log|
      invariant forall j :: 0 <= j < i ==> t.log[j] in closed
    {
      var op := t.log[i];
      assert op in Known(t);
      if Needs(op) != ROOT {
        var c :| c in t.log[..i] && c.kind.CreateNode? && c.id == Needs(op);
        assert c in closed;
      }
    }
  }

  // ----- records -----

  lemma {:induction false} SortUnique(n: OpId, base: OpId, baseSort: SortKey, ops: set<Op>, s: OpId, k: SortKey,
      s': OpId, k': SortKey)
    requires Genuine(ops)
    requires SortIs(n, base, baseSort, ops, s, k) && SortIs(n, base, baseSort, ops, s', k')
    ensures s == s' && k == k'
  {
  }

  lemma {:induction false} NodeUnique(n: OpId, a: Node, b: Node, ops: set<Op>)
    requires Genuine(ops) && NodeIs(n, a, ops) && NodeIs(n, b, ops)
    ensures a == b
  {
    assert a.tomb == b.tomb by { hide SortIs, CreatedBy; }
    if n == ROOT {
      SortUnique(n, ROOT, ROOT_NODE.sort, ops, a.stamp, a.sort, b.stamp, b.sort);
    } else {
      var c :| CreatedBy(n, a, ops, c);
      var d :| CreatedBy(n, b, ops, d);
      assert c == d;
      SortUnique(n, n, c.kind.sort, ops, a.stamp, a.sort, b.stamp, b.sort);
    }
  }

  /** Replicas that received the same ops, in whatever order, batches and repetition, have
      applied the same ones and hold the same records and the same frontier. */
  lemma {:induction false} SameKnownSameState(a: Tree, b: Tree)
    requires Coherent(a) && Coherent(b) && Known(a) == Known(b)
    ensures Elements(a.log) == Elements(b.log)
    ensures a.frontier == b.frontier
    ensures a.nodes == b.nodes
  {
    hide Rooted, Has, Ready, NodeIs;
    AppliedEverywhere(a.log, b);
    AppliedEverywhere(b.log, a);
    assert Ids(a.log) == Ids(b.log) by { SameIds(a.log, b.log); }
    assert a.frontier == b.frontier by { DenotesUnique(a.frontier, b.frontier, Ids(a.log)); }
    SameNodes(a, b);
  }

  lemma {:induction false} SameIds(a: seq<Op>, b: seq<Op>)
    requires Elements(a) == Elements(b)
    ensures Ids(a) == Ids(b)
  {
    forall id ensures id in Ids(a) <==> id in Ids(b) {
      if id in Ids(a) { var o :| o in a && o.id == id; assert o in Elements(b); }
      if id in Ids(b) { var o :| o in b && o.id == id; assert o in Elements(a); }
    }
  }

  lemma {:induction false} SameNodes(a: Tree, b: Tree)
    requires Coherent(a) && Coherent(b) && Elements(a.log) == Elements(b.log)
    ensures a.nodes == b.nodes
  {
    hide Rooted, Denotes, NodeIs, Stuck;
    forall n ensures n in a.nodes <==> n in b.nodes {
      assert HasCreate(a.log, n) <==> exists c :: c in Elements(a.log) && c.kind.CreateNode? && c.id == n;
      assert HasCreate(b.log, n) <==> exists c :: c in Elements(b.log) && c.kind.CreateNode? && c.id == n;
    }
    forall n | n in a.nodes ensures a.nodes[n] == b.nodes[n] {
      NodeUnique(n, a.nodes[n], b.nodes[n], Elements(a.log));
    }
  }

  // ----- child order and rendering -----

  /** The order `children` sorts by: the sort key, and for equal keys the insertion order. */
  predicate Before(nodes: map<OpId, Node>, s: seq<OpId>, x: OpId, y: OpId)
    requires x in nodes && y in nodes && x in s && y in s
  {
    KeyLess(nodes[x].sort, nodes[y].sort) || (nodes[x].sort == nodes[y].sort && IndexOf(s, x) < IndexOf(s, y))
  }

  ghost predicate Ranked(nodes: map<OpId, Node>, s: seq<OpId>, r: seq<OpId>) {
    && (forall x :: x in r ==> x in nodes && x in s)
    && forall i, j :: 0 <= i < j < |r| ==> Before(nodes, s, r[i], r[j])
  }

  lemma {:induction false} BeforeTransitive(nodes: map<OpId, Node>, s: seq<OpId>, x: OpId, y: OpId, z: OpId)
    requires x in nodes && y in nodes && z in nodes && x in s && y in s && z in s
    requires Before(nodes, s, x, y) && Before(nodes, s, y, z)
    ensures Before(nodes, s, x, z)
  {
    hide KeyLess;
    if KeyLess(nodes[x].sort, nodes[y].sort) && KeyLess(nodes[y].sort, nodes[z].sort) {
      KeyTransitive(nodes[x].sort, nodes[y].sort, nodes[z].sort);
    }
  }

  lemma {:induction false} BeforeAsymmetric(nodes: map<OpId, Node>, s: seq<OpId>, x: OpId, y: OpId)
    requires x in nodes && y in nodes && x in s && y in s && Before(nodes, s, x, y)
    ensures !Before(nodes, s, y, x)
  {
    KeyTotal(nodes[x].sort, nodes[y].sort);
    KeyTotal(nodes[x].sort, nodes[x].sort);
  }

  /** Inserting `x` in front of its equals keeps a list ranked. */
  lemma {:induction false} InsertRanked(nodes: map<OpId, Node>, s: seq<OpId>, x: OpId, r: seq<OpId>)
    requires x in nodes && x in s && Ranked(nodes, s, r)
    requires forall y :: y in r ==> IndexOf(s, x) < IndexOf(s, y)
    ensures Ranked(nodes, s, SortInsert(nodes, x, r))
    decreases |r|
  {
    hide KeyLess, IndexOf;
    var q := SortInsert(nodes, x, r);
    if r == [] {
    } else if !KeyLess(nodes[r[0]].sort, nodes[x].sort) {
      KeyTotal(nodes[r[0]].sort, nodes[x].sort);
      assert Before(nodes, s, x, r[0]);
      forall i, j | 0 <= i < j < |q| ensures Before(nodes, s, q[i], q[j]) {
        if i == 0 && j > 1 {
          BeforeTransitive(nodes, s, x, r[0], r[j - 1]);
        }
      }
    } else {
      InsertRanked(nodes, s, x, r[1..]);
      SortInsertElements(nodes, x, r[1..]);
      var rest := SortInsert(nodes, x, r[1..]);
      assert q == [r[0]] + rest;
      forall y | y in rest ensures Before(nodes, s, r[0], y) {
        assert y in Elements(rest);
        if y != x {
          var j :| 0 <= j < |r[1..]| && r[1..][j] == y;
          assert r[j + 1] == y;
        }
      }
    }
  }

  /** Ranking against a longer list that has one more entry in front. */
  lemma {:induction false} RankedBehind(nodes: map<OpId, Node>, s: seq<OpId>, r: seq<OpId>)
    requires s != [] && Distinct(s) && Ranked(nodes, s[1..], r)
    ensures Ranked(nodes, s, r) && forall y :: y in r ==> IndexOf(s, y) == IndexOf(s[1..], y) + 1
  {
    hide KeyLess;
    assert s == [s[0]] + s[1..];
    assert s[0] !in s[1..];
    forall y | y in r ensures y in s && IndexOf(s, y) == IndexOf(s[1..], y) + 1 {
      assert y != s[0];
    }
  }

  lemma {:induction false} SortRanked(nodes: map<OpId, Node>, s: seq<OpId>)
    requires Distinct(s) && forall y :: y in s ==> y in nodes
    ensures Ranked(nodes, s, StableSort(nodes, s))
    decreases |s|
  {
    if s != [] {
      hide Ranked, KeyLess, SortInsert;
      SortRanked(nodes, s[1..]);
      RankedBehind(nodes, s, StableSort(nodes, s[1..]));
      assert IndexOf(s, s[0]) == 0;
      InsertRanked(nodes, s, s[0], StableSort(nodes, s[1..]));
    } else {
      assert StableSort(nodes, s) == [];
    }
  }

  lemma {:induction false} TailElements(a: seq<OpId>)
    requires Distinct(a) && a != []
    ensures Elements(a[1..]) == Elements(a) - {a[0]} && Distinct(a[1..])
  {
    assert a == [a[0]] + a[1..];
    assert a[0] !in a[1..];
  }

  lemma {:induction false} RankedUnique(nodes: map<OpId, Node>, s: seq<OpId>, a: seq<OpId>, b: seq<OpId>)
    requires Ranked(nodes, s, a) && Ranked(nodes, s, b) && Distinct(a) && Distinct(b) && Elements(a) == Elements(b)
    ensures a == b
    decreases |a|
  {
    hide KeyLess, IndexOf;
    assert b != [] ==> b[0] in Elements(b);
    if a == [] {
      assert b == [];
    } else {
      assert a[0] in Elements(b);
      assert b != [];
      assert b[0] in Elements(a);
      var i :| 0 <= i < |a| && a[i] == b[0];
      var j :| 0 <= j < |b| && b[j] == a[0];
      if i > 0 && j > 0 {
        BeforeAsymmetric(nodes, s, a[0], a[i]);
        assert false;
      }
      assert a[0] == b[0];
      assert Ranked(nodes, s, a[1..]) && Ranked(nodes, s, b[1..]);
      hide Ranked, Distinct;
      assert a == [a[0]] + a[1..] && b == [b[0]] + b[1..];
      TailElements(a);
      TailElements(b);
      RankedUnique(nodes, s, a[1..], b[1..]);
    }
  }

  /** Entries with equal sort keys stand in the same relative order in both lists. */
  ghost predicate TiesAgree(nodes: map<OpId, Node>, keys: set<OpId>, a: seq<OpId>, b: seq<OpId>)
    requires keys <= nodes.Keys && keys <= Elements(a) && keys <= Elements(b)
  {
    forall x, y :: x in keys && y in keys && nodes[x].sort == nodes[y].sort ==>
      (IndexOf(a, x) < IndexOf(a, y) <==> IndexOf(b, x) < IndexOf(b, y))
  }

  /** Two stable sorts of the same entries agree exactly when the ties do. */
  lemma {:induction false} StableSortIff(nodes: map<OpId, Node>, a: seq<OpId>, b: seq<OpId>)
    requires Distinct(a) && Distinct(b) && Elements(a) == Elements(b) <= nodes.Keys
    requires forall y :: y in a ==> y in nodes
    requires forall y :: y in b ==> y in nodes
    ensures StableSort(nodes, a) == StableSort(nodes, b) <==> TiesAgree(nodes, Elements(a), a, b)
  {
    hide KeyLess, IndexOf, StableSort, Distinct;
    var r, q := StableSort(nodes, a), StableSort(nodes, b);
    SortRanked(nodes, a);
    SortRanked(nodes, b);
    SortElements(nodes, a);
    SortElements(nodes, b);
    if TiesAgree(nodes, Elements(a), a, b) {
      assert Ranked(nodes, a, q) by {
        forall x | x in q ensures x in a { assert x in Elements(q); }
        forall i, j | 0 <= i < j < |q| ensures Before(nodes, a, q[i], q[j]) {
          assert Before(nodes, b, q[i], q[j]);
          assert q[i] in Elements(a) && q[j] in Elements(a);
        }
      }
      RankedUnique(nodes, a, r, q);
    }
    if r == q {
      forall x, y | x in Elements(a) && y in Elements(a) && nodes[x].sort == nodes[y].sort
        ensures IndexOf(a, x) < IndexOf(a, y) <==> IndexOf(b, x) < IndexOf(b, y)
      {
        assert x in Elements(r) && y in Elements(r);
        var i :| 0 <= i < |r| && r[i] == x;
        var j :| 0 <= j < |r| && r[j] == y;
        KeyTotal(nodes[x].sort, nodes[y].sort);
        if i < j {
          assert Before(nodes, a, x, y) && Before(nodes, b, x, y);
        } else if j < i {
          assert Before(nodes, a, y, x) && Before(nodes, b, y, x);
        }
      }
    }
  }

  /** Restricting a list keeps the relative order of what stays. */
  lemma {:induction false} RestrictOrder(s: seq<OpId>, keep: set<OpId>, x: OpId, y: OpId)
    requires Distinct(s) && x in s && y in s && x in keep && y in keep
    ensures x in Restrict(s, keep) && y in Restrict(s, keep)
    ensures IndexOf(Restrict(s, keep), x) < IndexOf(Restrict(s, keep), y) <==> IndexOf(s, x) < IndexOf(s, y)
    decreases |s|
  {
    hide IndexOf, Restrict, Distinct;
    RestrictMembers(s, keep);
    var h, t := s[0], s[1..];
    assert s == [h] + t;
    assert Distinct(t) by { TailDistinct(s); }
    RestrictCons(h, t, keep);
    IndexCons(h, t, x);
    IndexCons(h, t, y);
    IndexCons(h, Restrict(t, keep), x);
    IndexCons(h, Restrict(t, keep), y);
    RestrictMembers(t, keep);
    if h != x && h != y {
      RestrictOrder(t, keep, x, y);
    }
  }

  lemma {:induction false} RestrictCons(h: OpId, t: seq<OpId>, keep: set<OpId>)
    ensures h in keep ==> Restrict([h] + t, keep) == [h] + Restrict(t, keep)
    ensures h !in keep ==> Restrict([h] + t, keep) == Restrict(t, keep)
  {
    assert ([h] + t)[1..] == t;
  }

  lemma {:induction false} TailDistinct<T>(s: seq<T>)
    requires Distinct(s) && s != []
    ensures Distinct(s[1..])
  {
  }

  lemma {:induction false} IndexCons(h: OpId, s: seq<OpId>, x: OpId)
    ensures x in [h] + s <==> x == h || x in s
    ensures x in [h] + s ==> IndexOf([h] + s, x) == if x == h then 0 else 1 + IndexOf(s, x)
  {
    assert ([h] + s)[1..] == s;
  }

  /** Replicas with the same records list the live children of `p` in the same order
      exactly when live siblings with equal sort keys arrived in the same order. */
  lemma {:induction false} ChildrenAgreeIff(a: Tree, b: Tree, p: OpId)
    requires WellFormed(a) && WellFormed(b) && a.nodes == b.nodes
    requires LiveKids(a.nodes, p) <= Elements(a.order) && LiveKids(a.nodes, p) <= Elements(b.order)
    ensures Children(a, p) == Children(b, p) <==> TiesAgree(a.nodes, LiveKids(a.nodes, p), a.order, b.order)
  {
    hide BehindParent, StableSort, IndexOf, Restrict;
    var kids := LiveKids(a.nodes, p);
    var s, q := LiveBucket(a.nodes, a.order, p), LiveBucket(b.nodes, b.order, p);
    BucketHolds(a.nodes, a.order, p);
    BucketHolds(b.nodes, b.order, p);
    StableSortIff(a.nodes, s, q);
    assert TiesAgree(a.nodes, kids, s, q) <==> TiesAgree(a.nodes, kids, a.order, b.order) by {
      forall x, y | x in kids && y in kids
        ensures x in s && y in s && (IndexOf(s, x) < IndexOf(s, y) <==> IndexOf(a.order, x) < IndexOf(a.order, y))
        ensures x in q && y in q && (IndexOf(q, x) < IndexOf(q, y) <==> IndexOf(b.order, x) < IndexOf(b.order, y))
      {
        assert x in Elements(a.order) && y in Elements(a.order) && x in Elements(b.order) && y in Elements(b.order);
        RestrictOrder(a.order, kids, x, y);
        RestrictOrder(b.order, kids, x, y);
      }
    }
  }

  lemma {:induction false} BucketHolds(nodes: map<OpId, Node>, order: seq<OpId>, p: OpId)
    requires Rooted(nodes, order)
    ensures Distinct(LiveBucket(nodes, order, p)) && Elements(LiveBucket(nodes, order, p)) == LiveKids(nodes, p)
    ensures forall y :: y in LiveBucket(nodes, order, p) ==> y in nodes
  {
    hide BehindParent;
    RestrictMembers(order, LiveKids(nodes, p));
    RestrictDistinct(order, LiveKids(nodes, p));
    forall k | k in LiveKids(nodes, p) ensures k in LiveBucket(nodes, order, p) {
      assert k in Elements(order);
    }
  }

  /** Live siblings carry different sort keys. */
  ghost predicate KeysDiffer(nodes: map<OpId, Node>) {
    forall x, y :: x in nodes && y in nodes && x != y && LiveSiblings(nodes[x], nodes[y]) ==>
      nodes[x].sort != nodes[y].sort
  }

  lemma {:induction false} DifferentKeysAgree(a: Tree, b: Tree, p: OpId)
    requires WellFormed(a) && WellFormed(b) && a.nodes == b.nodes && KeysDiffer(a.nodes)
    ensures Children(a, p) == Children(b, p)
  {
    hide BehindParent, StableSort, IndexOf, Restrict;
    forall k | k in LiveKids(a.nodes, p) ensures k in Elements(a.order) && k in Elements(b.order) {
    }
    forall x, y | x in LiveKids(a.nodes, p) && y in LiveKids(a.nodes, p) && a.nodes[x].sort == a.nodes[y].sort
      ensures x == y
    {
    }
    ChildrenAgreeIff(a, b, p);
  }

  lemma {:induction false} SameRenderAt(nodes: map<OpId, Node>, o: seq<OpId>, q: seq<OpId>, n: OpId)
    requires Rooted(nodes, o) && Rooted(nodes, q) && n in nodes
    requires forall p :: KidsIn(nodes, o, p) == KidsIn(nodes, q, p)
    ensures RenderAt(nodes, o, n) == RenderAt(nodes, q, n)
    decreases Height(o, n), 1, 0
  {
    hide KidsIn, Rooted, LiveKids;
    if nodes[n].body.Element? {
      KidsInAreKids(nodes, o, n);
      SameRenderKids(nodes, o, q, n, KidsIn(nodes, o, n));
    }
  }

  lemma {:induction false} SameRenderKids(nodes: map<OpId, Node>, o: seq<OpId>, q: seq<OpId>, n: OpId, kids: seq<OpId>)
    requires Rooted(nodes, o) && Rooted(nodes, q) && n in nodes
    requires forall p :: KidsIn(nodes, o, p) == KidsIn(nodes, q, p)
    requires forall k :: k in kids ==> k in LiveKids(nodes, n)
    ensures RenderKids(nodes, o, n, kids) == RenderKids(nodes, q, n, kids)
    decreases Height(o, n), 0, |kids|
  {
    hide KidsIn, Rooted;
    if kids != [] {
      KidIsLower(nodes, o, n, kids[0]);
      SameRenderAt(nodes, o, q, kids[0]);
      SameRenderKids(nodes, o, q, n, kids[1..]);
    }
  }

  /** Strong convergence: replicas that received the same ops show the same children
      everywhere and render the same text. */
  lemma {:induction false} SameKnownSameRender(a: Tree, b: Tree)
    requires Coherent(a) && Coherent(b) && Known(a) == Known(b) && KeysDiffer(a.nodes)
    ensures forall p :: Children(a, p) == Children(b, p)
    ensures Render(a) == Render(b)
  {
    hide KidsIn, KeysDiffer, Rooted, NodesFollow, Denotes, Supported, Stuck, Genuine, Clocked, Known;
    SameKnownSameState(a, b);
    forall p ensures Children(a, p) == Children(b, p) && KidsIn(a.nodes, a.order, p) == KidsIn(a.nodes, b.order, p) {
      DifferentKeysAgree(a, b, p);
    }
    RootIsThere(a);
    SameRenderAt(a.nodes, a.order, b.order, ROOT);
  }

  lemma {:induction false} RootIsThere(t: Tree)
    requires WellFormed(t)
    ensures ROOT in t.nodes
  {
  }
}
