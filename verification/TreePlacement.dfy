/** Where local edits of the lossless tree put nodes among their siblings. */
module TreePlacement {
  import opened Wrappers
  import opened Sequences
  import opened Bytes
  import opened FractionalKeys
  import opened VersionFrontier
  import opened TreeState
  import opened TreeConvergence
  import opened TreeAgreement

  type Nodes = map<OpId, Node>

  // ----- the child order as a ranking -----

  /** The child order ranks the live children by sort key and then by insertion order. */
  lemma {:induction false} KidsRanked(nodes: Nodes, order: seq<OpId>, p: OpId)
    requires Rooted(nodes, order)
    ensures Ranked(nodes, order, KidsIn(nodes, order, p))
    ensures Distinct(KidsIn(nodes, order, p)) && Elements(KidsIn(nodes, order, p)) == LiveKids(nodes, p)
  {
    hide BehindParent, StableSort, Restrict, KeyLess, IndexOf;
    var bucket, kids := LiveBucket(nodes, order, p), KidsIn(nodes, order, p);
    BucketHolds(nodes, order, p);
    SortRanked(nodes, bucket);
    KidsInAreKids(nodes, order, p);
    forall x | x in kids ensures x in nodes && x in order {
      assert x in Elements(kids) && x in Elements(order);
    }
    forall i, j | 0 <= i < j < |kids| ensures Before(nodes, order, kids[i], kids[j]) {
      assert Before(nodes, bucket, kids[i], kids[j]);
      assert kids[i] in Elements(kids) && kids[j] in Elements(kids);
      RestrictOrder(order, LiveKids(nodes, p), kids[i], kids[j]);
    }
  }

  /** Any ranked listing of the live children is the child order. */
  lemma {:induction false} KidsAre(nodes: Nodes, order: seq<OpId>, p: OpId, c: seq<OpId>)
    requires Rooted(nodes, order) && Distinct(c) && Elements(c) == LiveKids(nodes, p) && Ranked(nodes, order, c)
    ensures KidsIn(nodes, order, p) == c
  {
    hide Rooted, Ranked, KidsIn;
    KidsRanked(nodes, order, p);
    RankedUnique(nodes, order, KidsIn(nodes, order, p), c);
  }

  predicate SamePlace(a: Node, b: Node) {
    a.parent == b.parent && a.sort == b.sort && a.tomb == b.tomb
  }

  lemma {:induction false} PrefixIndex(order: seq<OpId>, order': seq<OpId>, x: OpId)
    requires order <= order' && x in order
    ensures x in order' && IndexOf(order', x) == IndexOf(order, x)
  {
    assert order' == order + order'[|order|..];
    IndexInFront(order, order'[|order|..], x);
  }

  /** Rankings of old nodes survive when their keys stay and new nodes come last. */
  lemma {:induction false} RankedStays(nodes: Nodes, order: seq<OpId>, nodes': Nodes, order': seq<OpId>, c: seq<OpId>)
    requires Ranked(nodes, order, c) && order <= order'
    requires forall x :: x in c ==> x in nodes' && nodes'[x].sort == nodes[x].sort
    ensures Ranked(nodes', order', c)
  {
    hide KeyLess, IndexOf;
    forall x | x in c ensures x in order' { PrefixIndex(order, order', x); }
    forall i, j | 0 <= i < j < |c| ensures Before(nodes', order', c[i], c[j]) {
      assert Before(nodes, order, c[i], c[j]);
      PrefixIndex(order, order', c[i]);
      PrefixIndex(order, order', c[j]);
    }
  }

  /** Where no child came, left or changed place, the child order stays. */
  lemma {:induction false} KidsStay(nodes: Nodes, order: seq<OpId>, nodes': Nodes, order': seq<OpId>, p: OpId)
    requires Rooted(nodes, order) && Rooted(nodes', order') && order <= order'
    requires LiveKids(nodes', p) == LiveKids(nodes, p)
    requires forall x :: x in LiveKids(nodes, p) ==> nodes'[x].sort == nodes[x].sort
    ensures KidsIn(nodes', order', p) == KidsIn(nodes, order, p)
  {
    hide Rooted, Ranked, KidsIn;
    var kids := KidsIn(nodes, order, p);
    KidsRanked(nodes, order, p);
    forall x | x in kids ensures x in nodes && x in nodes' && nodes'[x].sort == nodes[x].sort {
      assert x in Elements(kids);
    }
    RankedStays(nodes, order, nodes', order', kids);
    KidsAre(nodes', order', p, kids);
  }

  lemma {:induction false} InsertAt(rest: seq<OpId>, i: nat, n: OpId)
    requires i <= |rest|
    ensures |Insert(rest, i, n)| == |rest| + 1
    ensures forall a :: 0 <= a < |rest| + 1 ==>
              Insert(rest, i, n)[a] == if a < i then rest[a] else if a == i then n else rest[a - 1]
  {
  }

  lemma {:induction false} InsertedRanked(nodes: Nodes, order: seq<OpId>, rest: seq<OpId>, n: OpId, i: nat)
    requires Ranked(nodes, order, rest) && n in nodes && n in order && i <= |rest|
    requires forall k :: k in rest[..i] ==> k in nodes && KeyLess(nodes[k].sort, nodes[n].sort)
    requires forall k :: k in rest[i..] ==> k in nodes && KeyLess(nodes[n].sort, nodes[k].sort)
    ensures Ranked(nodes, order, Insert(rest, i, n))
  {
    var c := Insert(rest, i, n);
    InsertAt(rest, i, n);
    hide Insert, KeyLess, IndexOf;
    forall a, b | 0 <= a < b < |c|
      ensures c[a] in nodes && c[a] in order && c[b] in nodes && c[b] in order && Before(nodes, order, c[a], c[b])
    {
      if a == i {
        assert c[b] in rest[i..];
      } else if b == i {
        assert c[a] in rest[..i];
      }
    }
    forall a | 0 <= a < |c| ensures c[a] in nodes && c[a] in order {
    }
  }

  /** A child whose key separates the others at `i` is listed at `i`. */
  lemma {:induction false} KidsPlace(nodes: Nodes, order: seq<OpId>, p: OpId, rest: seq<OpId>, n: OpId, i: nat)
    requires Rooted(nodes, order) && Ranked(nodes, order, rest) && Distinct(rest) && n !in rest
    requires n in nodes && n in order && LiveKids(nodes, p) == Elements(rest) + {n} && i <= |rest|
    requires forall k :: k in rest[..i] ==> k in nodes && KeyLess(nodes[k].sort, nodes[n].sort)
    requires forall k :: k in rest[i..] ==> k in nodes && KeyLess(nodes[n].sort, nodes[k].sort)
    ensures KidsIn(nodes, order, p) == Insert(rest, i, n)
  {
    hide Rooted, KeyLess, IndexOf, KidsIn, LiveKids, Ranked, Insert;
    LiftInsert(rest, i, n);
    InsertedRanked(nodes, order, rest, n, i);
    KidsAre(nodes, order, p, Insert(rest, i, n));
  }

  lemma {:induction false} LiftRanked(nodes: Nodes, order: seq<OpId>, c: seq<OpId>, x: OpId)
    requires Ranked(nodes, order, c) && x in c
    ensures Ranked(nodes, order, Lift(c, x))
  {
    hide Before, IndexOf;
    var i := IndexOf(c, x);
    var r := Lift(c, x);
    forall y | y in r ensures y in c {
    }
    forall a, b | 0 <= a < b < |r| ensures Before(nodes, order, r[a], r[b]) {
      var u, v := if a < i then a else a + 1, if b < i then b else b + 1;
      assert r[a] == c[u] && r[b] == c[v];
    }
  }

  // ----- keys with room between them -----

  /** Every key is one `key_between` can work with. */
  ghost predicate ProperKeys(nodes: Nodes) {
    forall n :: n in nodes && n != ROOT ==> Proper(nodes[n].sort.frac)
  }

  /** Live siblings hold different fractions. */
  ghost predicate Spaced(nodes: Nodes) {
    forall x, y :: x in nodes && y in nodes && x != y && LiveSiblings(nodes[x], nodes[y]) ==>
      nodes[x].sort.frac != nodes[y].sort.frac
  }

  /** Where `_key_after` aims: in front without an anchor, behind a live anchor, else last. */
  function Slot(kids: seq<OpId>, after: Option<OpId>): nat {
    if after.None? then 0 else if after.value in kids then IndexOf(kids, after.value) + 1 else |kids|
  }

  lemma {:induction false} FracsRise(nodes: Nodes, order: seq<OpId>, p: OpId)
    requires Rooted(nodes, order)
    ensures forall x :: x in KidsIn(nodes, order, p) ==> x in nodes
    ensures forall i, j :: 0 <= i < j < |KidsIn(nodes, order, p)| ==>
              var a, b := nodes[KidsIn(nodes, order, p)[i]].sort.frac, nodes[KidsIn(nodes, order, p)[j]].sort.frac;
              a == b || BytesLess(a, b)
  {
    hide Rooted, KidsIn, BytesLess, IndexOf;
    KidsRanked(nodes, order, p);
    var kids := KidsIn(nodes, order, p);
    forall i, j | 0 <= i < j < |kids|
      ensures nodes[kids[i]].sort.frac == nodes[kids[j]].sort.frac
          || BytesLess(nodes[kids[i]].sort.frac, nodes[kids[j]].sort.frac)
    {
      assert Before(nodes, order, kids[i], kids[j]);
    }
  }

  /** The neighbours of the slot have room for a key between them. */
  ghost predicate Room(t: Tree, p: OpId, i: nat)
    requires WellFormed(t)
  {
    KidsInAreKids(t.nodes, t.order, p);
    var kids := Children(t, p);
    0 < i < |kids| ==> t.nodes[kids[i - 1]].sort.frac != t.nodes[kids[i]].sort.frac
  }

  lemma {:induction false} SpacedRoom(t: Tree, p: OpId, i: nat)
    requires WellFormed(t) && Spaced(t.nodes)
    ensures Room(t, p, i)
  {
    hide Rooted, KidsIn;
    KidsInAreKids(t.nodes, t.order, p);
    var kids := Children(t, p);
    if 0 < i < |kids| {
      assert kids[i - 1] != kids[i];
      assert kids[i - 1] in kids && kids[i] in kids;
    }
  }

  /** The fractions on either side of the slot, where there are any. */
  function LowEnd(nodes: Nodes, kids: seq<OpId>, after: Option<OpId>): Option<Frac>
    requires forall k :: k in kids ==> k in nodes
  {
    var i := Slot(kids, after);
    if i == 0 || i > |kids| then None else Some(nodes[kids[i - 1]].sort.frac)
  }

  function HighEnd(nodes: Nodes, kids: seq<OpId>, after: Option<OpId>): Option<Frac>
    requires forall k :: k in kids ==> k in nodes
  {
    var i := Slot(kids, after);
    if i >= |kids| then None else Some(nodes[kids[i]].sort.frac)
  }

  /** The computed key lies between them. */
  lemma {:induction false} KeyAfterIs(t: Tree, p: OpId, after: Option<OpId>)
    requires WellFormed(t)
    ensures var kids := Children(t, p);
            && (forall k :: k in kids ==> k in t.nodes) && Slot(kids, after) <= |kids|
            && KeyAfter(t, p, after).frac == Between(LowEnd(t.nodes, kids, after), HighEnd(t.nodes, kids, after))
  {
    hide *;
    ChildrenKnown(t, p);
    if after.None? {
      KeyAtFront(t, p);
    } else if after.value in Children(t, p) {
      KeyBehind(t, p, after.value);
    } else {
      KeyAtEnd(t, p, after.value);
    }
  }

  lemma {:induction false} ChildrenKnown(t: Tree, p: OpId)
    requires WellFormed(t)
    ensures forall k :: k in Children(t, p) ==> k in t.nodes
  {
    KidsInAreKids(t.nodes, t.order, p);
    hide Rooted, KidsIn;
  }

  lemma {:induction false} KeyAtFront(t: Tree, p: OpId)
    requires WellFormed(t) && forall k :: k in Children(t, p) ==> k in t.nodes
    ensures Slot(Children(t, p), None) <= |Children(t, p)|
    ensures KeyAfter(t, p, None).frac
            == Between(LowEnd(t.nodes, Children(t, p), None), HighEnd(t.nodes, Children(t, p), None))
  {
    hide Rooted, KidsIn, Between, IndexOf;
  }

  lemma {:induction false} KeyBehind(t: Tree, p: OpId, a: OpId)
    requires WellFormed(t) && a in Children(t, p) && forall k :: k in Children(t, p) ==> k in t.nodes
    ensures Slot(Children(t, p), Some(a)) <= |Children(t, p)|
    ensures KeyAfter(t, p, Some(a)).frac
            == Between(LowEnd(t.nodes, Children(t, p), Some(a)), HighEnd(t.nodes, Children(t, p), Some(a)))
  {
    hide Rooted, KidsIn, Between, IndexOf;
  }

  lemma {:induction false} KeyAtEnd(t: Tree, p: OpId, a: OpId)
    requires WellFormed(t) && a !in Children(t, p) && forall k :: k in Children(t, p) ==> k in t.nodes
    ensures Slot(Children(t, p), Some(a)) <= |Children(t, p)|
    ensures KeyAfter(t, p, Some(a)).frac
            == Between(LowEnd(t.nodes, Children(t, p), Some(a)), HighEnd(t.nodes, Children(t, p), Some(a)))
  {
    hide Rooted, KidsIn, Between, IndexOf;
  }

  lemma {:induction false} KidsProper(t: Tree, p: OpId)
    requires WellFormed(t) && ProperKeys(t.nodes)
    ensures forall k :: k in Children(t, p) ==> k in t.nodes && Proper(t.nodes[k].sort.frac)
  {
    KidsInAreKids(t.nodes, t.order, p);
    forall k | k in Children(t, p) ensures k in t.nodes && k != ROOT { assert k in LiveKids(t.nodes, p); }
    hide Rooted, KidsIn, Proper;
  }

  lemma {:induction false} RoomBetween(t: Tree, p: OpId, i: nat)
    requires WellFormed(t) && Room(t, p, i)
    ensures var kids := Children(t, p);
            && (forall k :: k in kids ==> k in t.nodes)
            && (forall m, n :: 0 <= m < n < |kids| ==>
                  t.nodes[kids[m]].sort.frac == t.nodes[kids[n]].sort.frac
                  || BytesLess(t.nodes[kids[m]].sort.frac, t.nodes[kids[n]].sort.frac))
            && (0 < i < |kids| ==> t.nodes[kids[i - 1]].sort.frac != t.nodes[kids[i]].sort.frac)
  {
    FracsRise(t.nodes, t.order, p);
    hide Rooted, KidsIn, BytesLess;
  }

  /** The computed key separates the children at the slot, wherever there is room. */
  lemma {:induction false} KeyAfterSeparates(t: Tree, p: OpId, after: Option<OpId>)
    requires WellFormed(t) && ProperKeys(t.nodes) && Room(t, p, Slot(Children(t, p), after))
    ensures Proper(KeyAfter(t, p, after).frac) && Slot(Children(t, p), after) <= |Children(t, p)|
    ensures forall k :: k in Children(t, p)[..Slot(Children(t, p), after)] ==>
              k in t.nodes && BytesLess(t.nodes[k].sort.frac, KeyAfter(t, p, after).frac)
    ensures forall k :: k in Children(t, p)[Slot(Children(t, p), after)..] ==>
              k in t.nodes && BytesLess(KeyAfter(t, p, after).frac, t.nodes[k].sort.frac)
  {
    hide *;
    KeyAfterIs(t, p, after);
    KidsProper(t, p);
    RoomBetween(t, p, Slot(Children(t, p), after));
    Separates(t.nodes, Children(t, p), after, KeyAfter(t, p, after).frac);
  }

  /** A key between the ends separates a list whose fractions rise. */
  lemma {:induction false} Separates(nodes: Nodes, kids: seq<OpId>, after: Option<OpId>, key: Frac)
    requires forall k :: k in kids ==> k in nodes && Proper(nodes[k].sort.frac)
    requires forall i, j :: 0 <= i < j < |kids| ==>
               nodes[kids[i]].sort.frac == nodes[kids[j]].sort.frac
               || BytesLess(nodes[kids[i]].sort.frac, nodes[kids[j]].sort.frac)
    requires var i := Slot(kids, after);
             i <= |kids| && (0 < i < |kids| ==> nodes[kids[i - 1]].sort.frac != nodes[kids[i]].sort.frac)
    requires key == Between(LowEnd(nodes, kids, after), HighEnd(nodes, kids, after))
    ensures Proper(key)
    ensures forall k :: k in kids[..Slot(kids, after)] ==> BytesLess(nodes[k].sort.frac, key)
    ensures forall k :: k in kids[Slot(kids, after)..] ==> BytesLess(key, nodes[k].sort.frac)
  {
    hide BytesLess, Between, Proper;
    var i, lo, hi := Slot(kids, after), LowEnd(nodes, kids, after), HighEnd(nodes, kids, after);
    BetweenProper(lo, hi);
    hide Slot, LowEnd, HighEnd;
    forall k | k in kids[..i] ensures BytesLess(nodes[k].sort.frac, key) {
      var j :| 0 <= j < i && kids[j] == k;
      if nodes[k].sort.frac != lo.value { BytesTransitive(nodes[k].sort.frac, lo.value, key); }
    }
    forall k | k in kids[i..] ensures BytesLess(key, nodes[k].sort.frac) {
      var j :| 0 <= j < |kids[i..]| && kids[i..][j] == k;
      assert kids[i + j] == k;
      if nodes[k].sort.frac != hi.value { BytesTransitive(key, hi.value, nodes[k].sort.frac); }
    }
  }

  /** Separating fractions are separating keys. */
  lemma {:induction false} FracsSeparate(nodes: Nodes, ks: seq<OpId>, key: SortKey)
    ensures (forall k :: k in ks ==> k in nodes && BytesLess(nodes[k].sort.frac, key.frac)) ==>
              forall k :: k in ks ==> k in nodes && KeyLess(nodes[k].sort, key)
    ensures (forall k :: k in ks ==> k in nodes && BytesLess(key.frac, nodes[k].sort.frac)) ==>
              forall k :: k in ks ==> k in nodes && KeyLess(key, nodes[k].sort)
  {
    hide BytesLess;
  }

  // ----- local edits -----

  /** The clock is past every node and every sort, so the next id is new and wins. */
  ghost predicate NodesClocked(t: Tree) {
    forall n :: n in t.nodes ==> n.counter <= t.counter && t.nodes[n].stamp.counter <= t.counter
  }

  /** What single-replica runs keep. */
  ghost predicate Solo(t: Tree) {
    WellFormed(t) && NodesClocked(t) && ProperKeys(t.nodes) && Spaced(t.nodes)
  }

  /** A key that separates the live children of `p` keeps siblings spaced. */
  lemma {:induction false} SpacedGrows(t: Tree, nodes': Nodes, p: OpId, n: OpId, i: nat)
    requires WellFormed(t) && Spaced(t.nodes) && i <= |Children(t, p)|
    requires n in nodes' && nodes'[n].parent == Some(p)
    requires forall m :: m in nodes' && m != n ==> m in t.nodes && SamePlace(t.nodes[m], nodes'[m])
    requires forall k :: k in Children(t, p)[..i] ==>
               k in t.nodes && BytesLess(t.nodes[k].sort.frac, nodes'[n].sort.frac)
    requires forall k :: k in Children(t, p)[i..] ==>
               k in t.nodes && BytesLess(nodes'[n].sort.frac, t.nodes[k].sort.frac)
    ensures Spaced(nodes')
  {
    hide BytesLess, KidsIn, BehindParent;
    KidsInAreKids(t.nodes, t.order, p);
    var kids := Children(t, p);
    forall m | m in nodes' && m != n && nodes'[m].tomb.None? && nodes'[m].parent == Some(p)
      ensures nodes'[m].sort.frac != nodes'[n].sort.frac
    {
      assert SamePlace(t.nodes[m], nodes'[m]);
      assert m in Elements(kids);
      assert kids == kids[..i] + kids[i..];
      BytesTotal(nodes'[m].sort.frac, nodes'[n].sort.frac);
      BytesTotal(nodes'[n].sort.frac, nodes'[n].sort.frac);
    }
    forall x, y | x in nodes' && y in nodes' && x != y && LiveSiblings(nodes'[x], nodes'[y])
      ensures nodes'[x].sort.frac != nodes'[y].sort.frac
    {
      if x != n && y != n {
        assert SamePlace(t.nodes[x], nodes'[x]) && SamePlace(t.nodes[y], nodes'[y]);
      }
    }
  }

  /** The records and the order after a creation. */
  lemma {:induction false} CreatedShape(t: Tree, p: OpId, after: Option<OpId>, seed: Body)
    requires WellFormed(t) && NodesClocked(t) && p in t.nodes
    ensures var r := Created(t, p, after, seed).value; var n := NextId(t);
            n !in t.nodes && WellFormed(r) && NodesClocked(r)
            && r.nodes == t.nodes[n := Node(Some(p), KeyAfter(t, p, after), n, seed, None, n)]
            && r.order == t.order + [n]
  {
    hide Rooted, KeyAfter, ObservedIn;
    var n := NextId(t);
    GrownRooted(t.nodes, t.order, n, Node(Some(p), KeyAfter(t, p, after), n, seed, None, n));
  }

  /** A new record becomes a live child of its parent and of nobody else. */
  lemma {:induction false} GrownKids(nodes: Nodes, n: OpId, rec: Node, p: OpId)
    requires n !in nodes && rec.parent == Some(p) && rec.tomb.None?
    ensures LiveKids(nodes[n := rec], p) == LiveKids(nodes, p) + {n} && n !in LiveKids(nodes, p)
    ensures forall q :: q != p ==> LiveKids(nodes[n := rec], q) == LiveKids(nodes, q)
  {
    forall q | q != p ensures LiveKids(nodes[n := rec], q) == LiveKids(nodes, q) {
    }
  }

  /** A created node appears at its slot and nowhere else does the child order change,
      as long as the neighbours of the slot have different fractions. */
  lemma {:induction false} CreatedLands(t: Tree, p: OpId, after: Option<OpId>, seed: Body)
    requires WellFormed(t) && NodesClocked(t) && ProperKeys(t.nodes) && p in t.nodes
    requires Room(t, p, Slot(Children(t, p), after))
    ensures var r := Created(t, p, after, seed).value; var kids := Children(t, p);
            WellFormed(r) && NodesClocked(r) && ProperKeys(r.nodes)
            && Slot(kids, after) <= |kids| && Children(r, p) == Insert(kids, Slot(kids, after), NextId(t))
            && (forall q :: q != p ==> Children(r, q) == Children(t, q))
            && (Spaced(t.nodes) ==> Spaced(r.nodes))
  {
    CreatedShape(t, p, after, seed);
    KeyAfterSeparates(t, p, after);
    var r := Created(t, p, after, seed).value;
    GrownLands(t, p, Slot(Children(t, p), after), NextId(t), r.nodes[NextId(t)], r);
  }

  /** The same for any record that is new, has a separating key and comes last in order. */
  lemma {:induction false} GrownLands(t: Tree, p: OpId, i: nat, n: OpId, rec: Node, r: Tree)
    requires WellFormed(t) && WellFormed(r) && ProperKeys(t.nodes) && p in t.nodes && n !in t.nodes
    requires r.nodes == t.nodes[n := rec] && r.order == t.order + [n]
    requires rec.parent == Some(p) && rec.tomb.None? && Proper(rec.sort.frac)
    requires i <= |Children(t, p)|
    requires forall k :: k in Children(t, p)[..i] ==> k in t.nodes && BytesLess(t.nodes[k].sort.frac, rec.sort.frac)
    requires forall k :: k in Children(t, p)[i..] ==> k in t.nodes && BytesLess(rec.sort.frac, t.nodes[k].sort.frac)
    ensures ProperKeys(r.nodes) && Children(r, p) == Insert(Children(t, p), i, n)
    ensures forall q :: q != p ==> Children(r, q) == Children(t, q)
    ensures Spaced(t.nodes) ==> Spaced(r.nodes)
  {
    hide Rooted, KidsIn, BytesLess, KeyLess, Proper, LiveKids, Spaced;
    FracsSeparate(t.nodes, Children(t, p)[..i], rec.sort);
    FracsSeparate(t.nodes, Children(t, p)[i..], rec.sort);
    GrownKids(t.nodes, n, rec, p);
    KidsKnown(t);
    assert n in r.order;
    KidsRanked(t.nodes, t.order, p);
    var kids := Children(t, p);
    forall x | x in kids ensures x in t.nodes && x != n { assert x in Elements(kids); }
    RankedStays(t.nodes, t.order, r.nodes, r.order, kids);
    KidsPlace(r.nodes, r.order, p, kids, n, i);
    forall q | q != p ensures Children(r, q) == Children(t, q) {
      KidsStay(t.nodes, t.order, r.nodes, r.order, q);
    }
    if Spaced(t.nodes) {
      SpacedGrows(t, r.nodes, p, n, i);
    }
  }

  lemma {:induction false} KidsKnown(t: Tree)
    ensures forall q, x :: x in LiveKids(t.nodes, q) ==> x in t.nodes
  {
  }

  /** `y` directly follows `x`. */
  predicate Follows(s: seq<OpId>, x: OpId, y: OpId) {
    exists j :: 0 <= j < |s| - 1 && s[j] == x && s[j + 1] == y
  }

  /** Behind a live anchor the new node comes directly after it if and only if the next
      sibling holds another fraction. */
  lemma {:induction false} CreatedAdjacentIff(t: Tree, p: OpId, a: OpId, seed: Body)
    requires WellFormed(t) && NodesClocked(t) && ProperKeys(t.nodes) && p in t.nodes && a in Children(t, p)
    ensures Follows(Children(Created(t, p, Some(a), seed).value, p), a, NextId(t))
            <==> Room(t, p, IndexOf(Children(t, p), a) + 1)
  {
    hide Rooted, KidsIn, KeyAfter;
    var kids := Children(t, p);
    var i := IndexOf(kids, a) + 1;
    if Room(t, p, i) {
      CreatedLands(t, p, Some(a), seed);
      var c := Insert(kids, i, NextId(t));
      assert c[i - 1] == a && c[i - 1 + 1] == NextId(t);
    } else {
      CreatedFallsBehind(t, p, a, seed);
    }
  }

  lemma {:induction false} CreatedFallsBehind(t: Tree, p: OpId, a: OpId, seed: Body)
    requires WellFormed(t) && NodesClocked(t) && p in t.nodes && a in Children(t, p)
    requires !Room(t, p, IndexOf(Children(t, p), a) + 1)
    ensures !Follows(Children(Created(t, p, Some(a), seed).value, p), a, NextId(t))
  {
    hide Rooted, KidsIn, BytesLess, KeyClosed, KeyOpen, Rest, Between, ObservedIn;
    var kids := Children(t, p);
    var i := IndexOf(kids, a) + 1;
    var b := kids[i];
    KidsInAreKids(t.nodes, t.order, p);
    assert b in kids && a in kids && a != b;
    var n, key := NextId(t), KeyAfter(t, p, Some(a));
    assert key.frac == Between(Some(t.nodes[b].sort.frac), Some(t.nodes[b].sort.frac));
    EqualEndsFallThrough(t.nodes[b].sort.frac);
    CreatedShape(t, p, Some(a), seed);
    var r := Created(t, p, Some(a), seed).value;
    GrownKids(t.nodes, n, r.nodes[n], p);
    KidsRanked(t.nodes, t.order, p);
    assert Before(t.nodes, t.order, kids[i - 1], kids[i]);
    BeforeStays(t.nodes, t.order, r.nodes, r.order, a, b);
    TwoAhead(r.nodes, r.order, p, a, b, n);
  }

  lemma {:induction false} BeforeStays(nodes: Nodes, order: seq<OpId>, nodes': Nodes, order': seq<OpId>, a: OpId,
    b: OpId)
    requires a in nodes && b in nodes && a in order && b in order && Before(nodes, order, a, b)
    requires order <= order' && a in nodes' && b in nodes' && nodes'[a].sort == nodes[a].sort
        && nodes'[b].sort == nodes[b].sort
    ensures a in order' && b in order' && Before(nodes', order', a, b)
  {
    PrefixIndex(order, order', a);
    PrefixIndex(order, order', b);
  }

  /** With `b` ranked between them, `n` does not come directly after `a`. */
  lemma {:induction false} TwoAhead(nodes: Nodes, order: seq<OpId>, p: OpId, a: OpId, b: OpId, n: OpId)
    requires Rooted(nodes, order) && a in LiveKids(nodes, p) && b in LiveKids(nodes, p) && n in LiveKids(nodes, p)
    requires a != b && b != n && a in order && b in order && Before(nodes, order, a, b)
    requires BytesLess(nodes[b].sort.frac, nodes[n].sort.frac)
    ensures !Follows(KidsIn(nodes, order, p), a, n)
  {
    hide KidsIn, BehindParent, BytesLess, IndexOf;
    KidsRanked(nodes, order, p);
    var kids := KidsIn(nodes, order, p);
    assert b in Elements(kids) && n in Elements(order);
    assert Before(nodes, order, b, n);
    var jb :| 0 <= jb < |kids| && kids[jb] == b;
    if Follows(kids, a, n) {
      var j :| 0 <= j < |kids| - 1 && kids[j] == a && kids[j + 1] == n;
      if jb < j { BeforeAsymmetric(nodes, order, a, b); }
      if j + 1 < jb { BeforeAsymmetric(nodes, order, b, n); }
    }
  }

  // ----- moving and deleting -----

  /** The position the moved node takes once it is lifted out. */
  function SlotWithout(kids: seq<OpId>, n: OpId, i: nat): nat {
    if n in kids && IndexOf(kids, n) < i then i - 1 else i
  }

  /** Lifting a node out of a separated list leaves the rest separated. */
  lemma {:induction false} LiftSeparates(kids: seq<OpId>, n: OpId, i: nat)
    requires n in kids && Distinct(kids) && i <= |kids|
    ensures SlotWithout(kids, n, i) <= |Lift(kids, n)|
    ensures forall k :: k in Lift(kids, n)[..SlotWithout(kids, n, i)] ==> k in kids[..i]
    ensures forall k :: k in Lift(kids, n)[SlotWithout(kids, n, i)..] ==> k in kids[i..]
  {
    hide IndexOf;
    var j, rest, i' := IndexOf(kids, n), Lift(kids, n), SlotWithout(kids, n, i);
    forall a | 0 <= a < |rest| ensures if a < i' then rest[a] in kids[..i] else rest[a] in kids[i..] {
      var b := if a < j then a else a + 1;
      assert rest[a] == kids[b];
      if a < i' {
        assert kids[..i][b] == rest[a];
      } else {
        assert kids[i..][b - i] == rest[a];
      }
    }
  }

  /** A moved live child is lifted out and put at its slot; nobody else's order changes. */
  lemma {:induction false} MovedLands(t: Tree, n: OpId, p: OpId, after: Option<OpId>)
    requires WellFormed(t) && NodesClocked(t) && ProperKeys(t.nodes)
    requires n in t.nodes && t.nodes[n].parent == Some(p)
    requires Room(t, p, Slot(Children(t, p), after))
    ensures var r := Moved(t, n, after).value;
            var kids := Children(t, p); var i := SlotWithout(kids, n, Slot(kids, after));
            WellFormed(r) && NodesClocked(r) && ProperKeys(r.nodes)
            && (n in kids ==> i <= |Lift(kids, n)| && Children(r, p) == Insert(Lift(kids, n), i, n))
            && (n !in kids ==> Children(r, p) == kids)
            && (forall q :: q != p ==> Children(r, q) == Children(t, q))
            && (Spaced(t.nodes) ==> Spaced(r.nodes))
  {
    MovedShape(t, n, p, after);
    KeyAfterSeparates(t, p, after);
    var r := Moved(t, n, after).value;
    RekeyedLands(t, p, Slot(Children(t, p), after), n, r);
  }

  lemma {:induction false} InsertFollows(kids: seq<OpId>, n: OpId, a: OpId)
    requires n in kids && a in kids && a != n
    ensures var j := SlotWithout(kids, n, IndexOf(kids, a) + 1);
            j <= |Lift(kids, n)| && Follows(Insert(Lift(kids, n), j, n), a, n)
  {
    var j := SlotWithout(kids, n, IndexOf(kids, a) + 1);
    var c := Insert(Lift(kids, n), j, n);
    assert c[j - 1] == a && c[j - 1 + 1] == n;
  }

  /** Moved behind another live child, a node comes directly after it. */
  lemma {:induction false} MovedAdjacent(t: Tree, n: OpId, p: OpId, a: OpId)
    requires WellFormed(t) && NodesClocked(t) && ProperKeys(t.nodes)
    requires n in t.nodes && t.nodes[n].parent == Some(p) && n in Children(t, p) && a in Children(t, p) && a != n
    requires Room(t, p, IndexOf(Children(t, p), a) + 1)
    ensures Follows(Children(Moved(t, n, Some(a)).value, p), a, n)
  {
    hide KidsIn, Moved, Room, Rooted, Follows, NodesClocked, ProperKeys, SlotWithout, Lift, Insert, Spaced;
    MovedLands(t, n, p, Some(a));
    InsertFollows(Children(t, p), n, a);
  }

  lemma {:induction false} MovedShape(t: Tree, n: OpId, p: OpId, after: Option<OpId>)
    requires WellFormed(t) && NodesClocked(t) && n in t.nodes && t.nodes[n].parent == Some(p)
    ensures var r := Moved(t, n, after).value;
            WellFormed(r) && NodesClocked(r) && r.order == t.order
            && r.nodes == t.nodes[n := t.nodes[n].(sort := KeyAfter(t, p, after), stamp := NextId(t))]
  {
    hide Rooted, KeyAfter, ObservedIn;
    EditedRooted(t.nodes, t.order, n, t.nodes[n].(sort := KeyAfter(t, p, after), stamp := NextId(t)));
  }

  /** A new sort key changes nobody's children as sets. */
  lemma {:induction false} RekeyedKids(nodes: Nodes, n: OpId, rec: Node)
    requires n in nodes && rec.parent == nodes[n].parent && rec.tomb == nodes[n].tomb
    ensures forall q :: LiveKids(nodes[n := rec], q) == LiveKids(nodes, q)
  {
    forall q ensures LiveKids(nodes[n := rec], q) == LiveKids(nodes, q) {
    }
  }

  lemma {:induction false} RekeyedLands(t: Tree, p: OpId, i: nat, n: OpId, r: Tree)
    requires WellFormed(t) && WellFormed(r) && ProperKeys(t.nodes)
    requires n in t.nodes && t.nodes[n].parent == Some(p) && r.order == t.order
    requires n in r.nodes && r.nodes == t.nodes[n := t.nodes[n].(sort := r.nodes[n].sort, stamp := r.nodes[n].stamp)]
    requires Proper(r.nodes[n].sort.frac) && i <= |Children(t, p)|
    requires forall k :: k in Children(t, p)[..i] ==>
               k in t.nodes && BytesLess(t.nodes[k].sort.frac, r.nodes[n].sort.frac)
    requires forall k :: k in Children(t, p)[i..] ==>
               k in t.nodes && BytesLess(r.nodes[n].sort.frac, t.nodes[k].sort.frac)
    ensures ProperKeys(r.nodes)
    ensures n in Children(t, p) ==> var j := SlotWithout(Children(t, p), n, i);
              j <= |Lift(Children(t, p), n)| && Children(r, p) == Insert(Lift(Children(t, p), n), j, n)
    ensures n !in Children(t, p) ==> Children(r, p) == Children(t, p)
    ensures forall q :: q != p ==> Children(r, q) == Children(t, q)
    ensures Spaced(t.nodes) ==> Spaced(r.nodes)
  {
    hide Rooted, KidsIn, BytesLess, KeyLess, Proper, LiveKids, Spaced, SlotWithout;
    var kids, key := Children(t, p), r.nodes[n].sort;
    FracsSeparate(t.nodes, kids[..i], key);
    FracsSeparate(t.nodes, kids[i..], key);
    RekeyedKids(t.nodes, n, r.nodes[n]);
    KidsRanked(t.nodes, t.order, p);
    ParentsKnown(t, n, p);
    if n in kids {
      RekeyedPlace(t, p, i, n, r);
    } else {
      assert n !in Elements(kids);
      KidsStay(t.nodes, t.order, r.nodes, r.order, p);
    }
    forall q | q != p ensures Children(r, q) == Children(t, q) {
      KidsStay(t.nodes, t.order, r.nodes, r.order, q);
    }
    if Spaced(t.nodes) {
      SpacedGrows(t, r.nodes, p, n, i);
    }
  }

  lemma {:induction false} ParentsKnown(t: Tree, n: OpId, p: OpId)
    requires n in t.nodes && t.nodes[n].parent == Some(p)
    ensures forall q, x :: x in LiveKids(t.nodes, q) ==> x in t.nodes
    ensures forall q :: n in LiveKids(t.nodes, q) ==> q == p
  {
  }

  lemma {:induction false} RekeyedPlace(t: Tree, p: OpId, i: nat, n: OpId, r: Tree)
    requires WellFormed(t) && WellFormed(r) && n in Children(t, p) && r.order == t.order
    requires n in t.nodes && n in r.nodes
        && r.nodes == t.nodes[n := t.nodes[n].(sort := r.nodes[n].sort, stamp := r.nodes[n].stamp)]
    requires LiveKids(r.nodes, p) == LiveKids(t.nodes, p) && i <= |Children(t, p)|
    requires forall k :: k in Children(t, p)[..i] ==> k in t.nodes && KeyLess(t.nodes[k].sort, r.nodes[n].sort)
    requires forall k :: k in Children(t, p)[i..] ==> k in t.nodes && KeyLess(r.nodes[n].sort, t.nodes[k].sort)
    ensures var j := SlotWithout(Children(t, p), n, i);
            j <= |Lift(Children(t, p), n)| && Children(r, p) == Insert(Lift(Children(t, p), n), j, n)
  {
    hide Rooted, KidsIn, KeyLess, LiveKids, SlotWithout;
    var kids := Children(t, p);
    KidsRanked(t.nodes, t.order, p);
    var rest, j := Lift(kids, n), SlotWithout(kids, n, i);
    LiftRanked(t.nodes, t.order, kids, n);
    LiftDistinct(kids, n);
    LiftSeparates(kids, n, i);
    assert n !in Elements(rest);
    forall k | k in rest ensures k in r.nodes && k in t.nodes && k != n && r.nodes[k].sort == t.nodes[k].sort {
      assert k in Elements(rest);
    }
    RankedStays(t.nodes, t.order, r.nodes, r.order, rest);
    assert n in Elements(kids);
    KidsPlace(r.nodes, r.order, p, rest, n, j);
  }

  /** A deleted node leaves its place; the others keep theirs. */
  lemma {:induction false} BuriedLeaves(t: Tree, n: OpId, p: OpId)
    requires WellFormed(t) && NodesClocked(t) && ProperKeys(t.nodes)
    requires n in t.nodes && n != ROOT && t.nodes[n].parent == Some(p)
    ensures var r := Buried(t, n).value; var kids := Children(t, p);
            WellFormed(r) && NodesClocked(r) && ProperKeys(r.nodes)
            && Children(r, p) == (if n in kids then Lift(kids, n) else kids)
            && (forall q :: q != p ==> Children(r, q) == Children(t, q))
            && (Spaced(t.nodes) ==> Spaced(r.nodes))
  {
    hide Rooted, KidsIn, Proper, ObservedIn;
    EditedRooted(t.nodes, t.order, n, Entombed(t.nodes[n], NextId(t)));
    var r := Buried(t, n).value;
    EntombedKids(t, n, p, r);
    assert forall x :: x in r.nodes && r.nodes[x].tomb.None? ==> x in t.nodes && r.nodes[x] == t.nodes[x];
  }

  /** Tombstoning one node takes it out of its parent's children and does nothing else. */
  lemma {:induction false} EntombedKids(t: Tree, n: OpId, p: OpId, r: Tree)
    requires WellFormed(t) && WellFormed(r) && n in t.nodes && t.nodes[n].parent == Some(p)
    requires r.order == t.order && r.nodes.Keys == t.nodes.Keys && r.nodes[n].tomb.Some?
    requires forall m :: m in t.nodes && m != n ==> SamePlace(t.nodes[m], r.nodes[m])
    requires r.nodes[n].parent == Some(p)
    ensures Children(r, p) == if n in Children(t, p) then Lift(Children(t, p), n) else Children(t, p)
    ensures forall q :: q != p ==> Children(r, q) == Children(t, q)
  {
    hide Rooted, KidsIn, IndexOf, Lift;
    EntombedLive(t.nodes, n, p, r.nodes);
    forall q | q != p ensures Children(r, q) == Children(t, q) {
      LiveSorts(t.nodes, n, q, r.nodes);
      KidsStay(t.nodes, t.order, r.nodes, r.order, q);
    }
    EntombedAt(t, n, p, r);
  }

  lemma {:induction false} EntombedLive(nodes: Nodes, n: OpId, p: OpId, nodes': Nodes)
    requires n in nodes && nodes[n].parent == Some(p) && nodes'.Keys == nodes.Keys
    requires nodes'[n].tomb.Some? && nodes'[n].parent == Some(p)
    requires forall m :: m in nodes && m != n ==> SamePlace(nodes[m], nodes'[m])
    ensures LiveKids(nodes', p) == LiveKids(nodes, p) - {n}
    ensures forall q :: q != p ==> LiveKids(nodes', q) == LiveKids(nodes, q) && n !in LiveKids(nodes, q)
  {
    forall q | q != p ensures LiveKids(nodes', q) == LiveKids(nodes, q) {
    }
  }

  lemma {:induction false} LiveSorts(nodes: Nodes, n: OpId, q: OpId, nodes': Nodes)
    requires nodes'.Keys == nodes.Keys && n !in LiveKids(nodes, q)
    requires forall m :: m in nodes && m != n ==> SamePlace(nodes[m], nodes'[m])
    ensures forall x :: x in LiveKids(nodes, q) ==> x in nodes && x in nodes' && nodes'[x].sort == nodes[x].sort
  {
  }

  lemma {:induction false} EntombedAt(t: Tree, n: OpId, p: OpId, r: Tree)
    requires WellFormed(t) && WellFormed(r) && n in t.nodes && r.order == t.order && r.nodes.Keys == t.nodes.Keys
    requires forall m :: m in t.nodes && m != n ==> SamePlace(t.nodes[m], r.nodes[m])
    requires LiveKids(r.nodes, p) == LiveKids(t.nodes, p) - {n}
    ensures Children(r, p) == if n in Children(t, p) then Lift(Children(t, p), n) else Children(t, p)
  {
    hide Rooted, KidsIn, IndexOf, Lift;
    var kids := Children(t, p);
    KidsRanked(t.nodes, t.order, p);
    if n in kids {
      LiftRanked(t.nodes, t.order, kids, n);
      LiftDistinct(kids, n);
      forall k | k in Lift(kids, n) ensures k in r.nodes && k in t.nodes && r.nodes[k].sort == t.nodes[k].sort {
        assert k in Elements(Lift(kids, n));
      }
      RankedStays(t.nodes, t.order, r.nodes, r.order, Lift(kids, n));
      KidsAre(r.nodes, r.order, p, Lift(kids, n));
    } else {
      assert n !in Elements(kids);
      LiveSorts(t.nodes, n, p, r.nodes);
      KidsStay(t.nodes, t.order, r.nodes, r.order, p);
    }
  }
}
