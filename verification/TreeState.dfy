/** The lossless tree CRDT as values: records, operations and the transition functions of
    `src/lazily/lossless_tree_crdt.py`. */
module TreeState {
  import opened Wrappers
  import opened Sequences
  import opened FractionalKeys
  import opened VersionFrontier

  datatype LeafKind = Token | Trivia | Raw | Error

  /** An element owns structure, a leaf owns text. */
  datatype Body = Element(kind: string) | Leaf(leafKind: LeafKind, text: string)

  datatype OpKind =
    | CreateNode(node: OpId, parent: OpId, sort: SortKey, seed: Body)
    | Tombstone(target: OpId)
    | Reorder(target: OpId, newSort: SortKey)
    | SplitLeaf(leaf: OpId, made: OpId, splitSort: SortKey, atChar: nat, prev: OpId)
    | MergeLeaves(left: OpId, right: OpId, prevLeft: OpId, prevRight: OpId)

  datatype Op = Op(id: OpId, kind: OpKind)

  /** One node record; `stamp` is the id of the op that set `sort`. */
  datatype Node = Node(parent: Option<OpId>, sort: SortKey, stamp: OpId, body: Body, tomb: Option<OpId>, textHead: OpId)

  /** A replica. `order` is the insertion order of the node dictionary. */
  datatype Tree = Tree(
    peer: nat,
    counter: nat,
    nodes: map<OpId, Node>,
    order: seq<OpId>,
    frontier: Frontier,
    log: seq<Op>,
    buffered: seq<Op>
  )

  const ROOT_NODE := Node(None, SortKey([], 0), ROOT, Element("root"), None, ROOT)

  function EmptyTree(peer: nat): Tree {
    Tree(peer, 0, map[ROOT := ROOT_NODE], [ROOT], map[], [], [])
  }

  function MinId(a: OpId, b: OpId): OpId {
    if IdLess(b, a) then b else a
  }

  // ----- reading -----

  /** The live children of `p`, unordered. */
  function LiveKids(nodes: map<OpId, Node>, p: OpId): set<OpId> {
    set n | n in nodes && nodes[n].parent == Some(p) && nodes[n].tomb.None?
  }

  predicate LiveSiblings(a: Node, b: Node) {
    a.tomb.None? && b.tomb.None? && a.parent == b.parent
  }

  /** Put `x` in front of the first entry that does not sort before it. */
  function SortInsert(nodes: map<OpId, Node>, x: OpId, s: seq<OpId>): seq<OpId>
    requires x in nodes && forall y :: y in s ==> y in nodes
  {
    if s == [] || !KeyLess(nodes[s[0]].sort, nodes[x].sort) then [x] + s
    else [s[0]] + SortInsert(nodes, x, s[1..])
  }

  /** A stable sort by sort key. */
  function StableSort(nodes: map<OpId, Node>, s: seq<OpId>): (r: seq<OpId>)
    requires forall y :: y in s ==> y in nodes
    ensures forall y :: y in r ==> y in nodes
  {
    if s == [] then []
    else
      SortInsertElements(nodes, s[0], StableSort(nodes, s[1..]));
      SortInsert(nodes, s[0], StableSort(nodes, s[1..]))
  }

  lemma {:induction false} SortInsertElements(nodes: map<OpId, Node>, x: OpId, s: seq<OpId>)
    requires x in nodes && forall y :: y in s ==> y in nodes
    ensures Elements(SortInsert(nodes, x, s)) == Elements(s) + {x}
    ensures x !in s && Distinct(s) ==> Distinct(SortInsert(nodes, x, s))
    ensures forall y :: y in SortInsert(nodes, x, s) ==> y in nodes
    decreases |s|
  {
    if s == [] || !KeyLess(nodes[s[0]].sort, nodes[x].sort) {
      assert SortInsert(nodes, x, s) == [x] + s;
    } else {
      SortInsertElements(nodes, x, s[1..]);
      var r := SortInsert(nodes, x, s[1..]);
      assert SortInsert(nodes, x, s) == [s[0]] + r;
      assert s == [s[0]] + s[1..];
      assert Elements(s) == {s[0]} + Elements(s[1..]);
      assert Elements([s[0]] + r) == {s[0]} + Elements(r);
      forall y | y in SortInsert(nodes, x, s) ensures y in nodes {
        assert y in Elements(SortInsert(nodes, x, s));
      }
      if x !in s && Distinct(s) {
        assert s[0] !in s[1..];
        assert s[0] !in Elements(r);
        assert Distinct([s[0]] + r);
      }
    }
  }

  /** The live children of `p` in insertion order. */
  function LiveBucket(nodes: map<OpId, Node>, order: seq<OpId>, p: OpId): seq<OpId> {
    Restrict(order, LiveKids(nodes, p))
  }

  /** `children`: the live children of `p` in sort-key order, ties in insertion order. */
  function KidsIn(nodes: map<OpId, Node>, order: seq<OpId>, p: OpId): seq<OpId> {
    RestrictMembers(order, LiveKids(nodes, p));
    StableSort(nodes, LiveBucket(nodes, order, p))
  }

  function Children(t: Tree, p: OpId): seq<OpId> {
    KidsIn(t.nodes, t.order, p)
  }

  /** Every node but the root was inserted after its parent. */
  ghost predicate Rooted(nodes: map<OpId, Node>, order: seq<OpId>) {
    && Distinct(order) && Elements(order) == nodes.Keys
    && order != [] && order[0] == ROOT && ROOT in nodes
    && nodes[ROOT].parent == None && nodes[ROOT].body.Element?
    && (forall n :: n in nodes && n != ROOT ==> BehindParent(nodes, order, n))
  }

  ghost predicate BehindParent(nodes: map<OpId, Node>, order: seq<OpId>, n: OpId)
    requires n in nodes
  {
    && nodes[n].parent.Some?
    && n in order && nodes[n].parent.value in order
    && IndexOf(order, nodes[n].parent.value) < IndexOf(order, n)
  }

  ghost predicate WellFormed(t: Tree) {
    Rooted(t.nodes, t.order)
  }

  function Height(order: seq<OpId>, n: OpId): nat {
    if n in order then |order| - IndexOf(order, n) else 0
  }

  /** `render` from one node down: leaves give their text, elements their live children. */
  ghost function RenderAt(nodes: map<OpId, Node>, order: seq<OpId>, n: OpId): string
    requires Rooted(nodes, order) && n in nodes
    decreases Height(order, n), 1, 0
  {
    match nodes[n].body
    case Leaf(_, text) => text
    case Element(_) =>
      KidsInAreKids(nodes, order, n);
      RenderKids(nodes, order, n, KidsIn(nodes, order, n))
  }

  ghost function RenderKids(nodes: map<OpId, Node>, order: seq<OpId>, n: OpId, kids: seq<OpId>): string
    requires Rooted(nodes, order) && n in nodes
    requires forall k :: k in kids ==> k in LiveKids(nodes, n)
    decreases Height(order, n), 0, |kids|
  {
    if kids == [] then ""
    else
      KidIsLower(nodes, order, n, kids[0]);
      RenderAt(nodes, order, kids[0]) + RenderKids(nodes, order, n, kids[1..])
  }

  lemma {:induction false} KidIsLower(nodes: map<OpId, Node>, order: seq<OpId>, n: OpId, k: OpId)
    requires Rooted(nodes, order) && n in nodes && k in LiveKids(nodes, n)
    ensures n in order && k in order && Height(order, k) < Height(order, n)
  {
    assert n in Elements(order) && k in Elements(order);
    assert BehindParent(nodes, order, k);
  }

  lemma {:induction false} KidsInAreKids(nodes: map<OpId, Node>, order: seq<OpId>, n: OpId)
    requires Rooted(nodes, order)
    ensures Elements(KidsIn(nodes, order, n)) == LiveKids(nodes, n) && Distinct(KidsIn(nodes, order, n))
    ensures forall k :: k in KidsIn(nodes, order, n) ==> k in LiveKids(nodes, n)
  {
    hide BehindParent, StableSort;
    RestrictMembers(order, LiveKids(nodes, n));
    RestrictDistinct(order, LiveKids(nodes, n));
    SortElements(nodes, LiveBucket(nodes, order, n));
    forall k | k in LiveKids(nodes, n) ensures k in LiveBucket(nodes, order, n) {
      assert k in Elements(order);
    }
    assert Elements(LiveBucket(nodes, order, n)) == LiveKids(nodes, n);
    forall k | k in KidsIn(nodes, order, n) ensures k in LiveKids(nodes, n) {
      assert k in Elements(KidsIn(nodes, order, n));
    }
  }

  lemma {:induction false} SortElements(nodes: map<OpId, Node>, s: seq<OpId>)
    requires forall y :: y in s ==> y in nodes
    ensures Elements(StableSort(nodes, s)) == Elements(s)
    ensures Distinct(s) ==> Distinct(StableSort(nodes, s))
    decreases |s|
  {
    if s != [] {
      SortElements(nodes, s[1..]);
      SortInsertElements(nodes, s[0], StableSort(nodes, s[1..]));
      assert s == [s[0]] + s[1..];
      if Distinct(s) {
        assert s[0] !in s[1..];
        assert s[0] !in Elements(StableSort(nodes, s[1..]));
      }
    }
  }

  /** `render`. */
  ghost function Render(t: Tree): string
    requires WellFormed(t)
  {
    RenderAt(t.nodes, t.order, ROOT)
  }

  // ----- applying -----

  /** `_dependencies_ready`. */
  predicate Ready(t: Tree, op: Op) {
    match op.kind
    case CreateNode(_, parent, _, _) => parent in t.nodes
    case Tombstone(target) => target in t.nodes
    case Reorder(target, _) => target in t.nodes
    case SplitLeaf(leaf, _, _, _, prev) => leaf in t.nodes && Has(t.frontier, prev)
    case MergeLeaves(left, right, prevLeft, prevRight) =>
      left in t.nodes && right in t.nodes && Has(t.frontier, prevLeft) && Has(t.frontier, prevRight)
  }

  function Entombed(n: Node, id: OpId): Node {
    n.(tomb := Some(if n.tomb.None? then id else MinId(n.tomb.value, id)))
  }

  function SplitAt(text: string, at: nat): nat {
    if at < |text| then at else |text|
  }

  /** `_apply_op`: the effect of one op on the node records. */
  function Applied(t: Tree, op: Op): Tree {
    match op.kind
    case CreateNode(node, parent, sort, seed) =>
      if node in t.nodes then t
      else t.(nodes := t.nodes[node := Node(Some(parent), sort, op.id, seed, None, op.id)], order := t.order + [node])
    case Tombstone(target) =>
      if target in t.nodes then t.(nodes := t.nodes[target := Entombed(t.nodes[target], op.id)]) else t
    case Reorder(target, newSort) =>
      if target in t.nodes && IdLess(t.nodes[target].stamp, op.id)
      then t.(nodes := t.nodes[target := t.nodes[target].(sort := newSort, stamp := op.id)])
      else t
    case SplitLeaf(leaf, made, splitSort, atChar, _) =>
      if leaf !in t.nodes || !t.nodes[leaf].body.Leaf? then t
      else
        var rec := t.nodes[leaf];
        var cut := SplitAt(rec.body.text, atChar);
        var head, tail := Leaf(rec.body.leafKind, rec.body.text[..cut]), Leaf(rec.body.leafKind, rec.body.text[cut..]);
        var nodes := t.nodes[leaf := rec.(body := head, textHead := op.id)];
        if made in nodes || rec.parent.None? then t.(nodes := nodes)
        else t.(nodes := nodes[made := Node(rec.parent, splitSort, op.id, tail, None, ROOT)], order := t.order + [made])
    case MergeLeaves(left, right, _, _) =>
      if left !in t.nodes || right !in t.nodes || !t.nodes[left].body.Leaf? || !t.nodes[right].body.Leaf? then t
      else
        var joined := Leaf(t.nodes[left].body.leafKind, t.nodes[left].body.text + t.nodes[right].body.text);
        var nodes := t.nodes[left := t.nodes[left].(body := joined, textHead := op.id)];
        t.(nodes := nodes[right := Entombed(nodes[right], op.id)])
  }

  /** Apply an op, then enter it into the frontier and the log. */
  function Commit(t: Tree, op: Op): Tree {
    var a := Applied(t, op);
    a.(frontier := ObservedIn(a.frontier, op.id), log := a.log + [op])
  }

  /** The first loop of `apply_update`: advance the clock, keep what is not held yet. */
  function Enqueued(t: Tree, ops: seq<Op>): Tree
    decreases |ops|
  {
    if ops == [] then t
    else
      var op := ops[0];
      var clocked := if op.id.counter > t.counter then t.(counter := op.id.counter) else t;
      Enqueued(if Has(t.frontier, op.id) then clocked else clocked.(buffered := clocked.buffered + [op]), ops[1..])
  }

  /** One sweep of `_drain_buffered` over the pending ops; the flag tells of progress. */
  function Sweep(t: Tree, pending: seq<Op>): (r: (Tree, bool))
    ensures |r.0.buffered| + (if r.1 then 1 else 0) <= |t.buffered| + |pending|
    decreases |pending|
  {
    if pending == [] then (t, false)
    else
      var op := pending[0];
      if Has(t.frontier, op.id) then Sweep(t, pending[1..])
      else if Ready(t, op) then (Sweep(Commit(t, op), pending[1..]).0, true)
      else Sweep(t.(buffered := t.buffered + [op]), pending[1..])
  }

  /** `_drain_buffered`: sweep until nothing moves. */
  function Drained(t: Tree): Tree
    decreases |t.buffered|
  {
    var r := Sweep(t.(buffered := []), t.buffered);
    if r.1 then Drained(r.0) else r.0
  }

  function Updated(t: Tree, ops: seq<Op>): Tree {
    Drained(Enqueued(t, ops))
  }

  // ----- local mutations -----

  /** `_key_after`: a key behind the anchor, in front when there is none, at the end when
      the anchor is not a live child. */
  function KeyAfter(t: Tree, parent: OpId, after: Option<OpId>): SortKey
    requires WellFormed(t)
  {
    var order := Children(t, parent);
    KidsInAreKids(t.nodes, t.order, parent);
    var n := |order|;
    var lo := if after.None? then None
              else if after.value in order then Some(t.nodes[after.value].sort.frac)
              else if n > 0 then Some(t.nodes[order[n - 1]].sort.frac) else None;
    var hi := if after.None? then (if n > 0 then Some(t.nodes[order[0]].sort.frac) else None)
              else if after.value in order && IndexOf(order, after.value) + 1 < n
              then Some(t.nodes[order[IndexOf(order, after.value) + 1]].sort.frac) else None;
    SortKey(Between(lo, hi), t.peer)
  }

  function NextId(t: Tree): OpId {
    OpId(t.counter + 1, t.peer)
  }

  function CommitLocal(t: Tree, kind: OpKind): Tree {
    Commit(t.(counter := t.counter + 1), Op(NextId(t), kind))
  }

  function Created(t: Tree, parent: OpId, after: Option<OpId>, seed: Body): Option<Tree>
    requires WellFormed(t)
  {
    if parent !in t.nodes then None
    else Some(CommitLocal(t, CreateNode(NextId(t), parent, KeyAfter(t, parent, after), seed)))
  }

  function Buried(t: Tree, node: OpId): Option<Tree> {
    if node !in t.nodes || node == ROOT then None
    else Some(CommitLocal(t, Tombstone(node)))
  }

  function Moved(t: Tree, node: OpId, after: Option<OpId>): Option<Tree>
    requires WellFormed(t)
  {
    if node !in t.nodes || t.nodes[node].parent.None? then None
    else Some(CommitLocal(t, Reorder(node, KeyAfter(t, t.nodes[node].parent.value, after))))
  }

  /** The bytes UTF-8 takes for a character. */
  function Utf8Width(c: char): nat {
    if c < 0x80 as char then 1 else if c < 0x800 as char then 2 else if c as int < 0x1_0000 then 3 else 4
  }

  /** The code points that some number of UTF-8 bytes can hold: 7, 11, 16 and 21 bits. */
  const CAPACITIES: seq<int> := [0x80, 0x800, 0x1_0000, 0x20_0000]

  /** A character takes the fewest bytes that hold it. */
  lemma {:induction false} WidthIsLeast(c: char)
    ensures 1 <= Utf8Width(c) <= 4 && c as int < CAPACITIES[Utf8Width(c) - 1]
    ensures Utf8Width(c) > 1 ==> CAPACITIES[Utf8Width(c) - 2] <= c as int
  {
  }

  function Utf8Length(text: string): nat {
    if text == "" then 0 else Utf8Width(text[0]) + Utf8Length(text[1..])
  }

  /** `byte_to_char`: the characters in the first `at` bytes, if these end between characters. */
  function ByteToChar(text: string, at: int): Option<nat>
    decreases |text|
  {
    if at == 0 then Some(0)
    else if at < 0 || text == "" then None
    else
      var rest := ByteToChar(text[1..], at - Utf8Width(text[0]));
      if rest.None? then None else Some(rest.value + 1)
  }

  /** An offset is accepted exactly when some first characters take up that many bytes, and it
      is read as how many these are. */
  lemma {:induction false} ByteToCharIff(text: string, at: int, i: nat)
    ensures ByteToChar(text, at) == Some(i) <==> i <= |text| && Utf8Length(text[..i]) == at
    decreases |text|
  {
    if text != "" && i > 0 {
      ByteToCharIff(text[1..], at - Utf8Width(text[0]), i - 1);
      if i <= |text| {
        assert text[..i][0] == text[0] && text[..i][1..] == text[1..][..i - 1];
      }
    }
  }

  /** `split_leaf` by byte offset. */
  function SplitAtByte(t: Tree, node: OpId, atByte: int): Option<Tree>
    requires WellFormed(t)
  {
    if node !in t.nodes || !t.nodes[node].body.Leaf? then None
    else
      var at := ByteToChar(t.nodes[node].body.text, atByte);
      if at.None? then None else Split(t, node, at.value)
  }

  /** Splitting at a byte offset is splitting behind the characters that take up that many bytes;
      an offset that falls between no characters is refused. */
  lemma {:induction false} ByteSplitIs(t: Tree, node: OpId, atByte: int, i: nat)
    requires WellFormed(t) && node in t.nodes && t.nodes[node].body.Leaf?
    ensures i <= |t.nodes[node].body.text| && Utf8Length(t.nodes[node].body.text[..i]) == atByte ==>
              SplitAtByte(t, node, atByte) == Split(t, node, i)
    ensures (forall j :: 0 <= j <= |t.nodes[node].body.text| ==> Utf8Length(t.nodes[node].body.text[..j]) != atByte) ==>
              SplitAtByte(t, node, atByte) == None
  {
    var text := t.nodes[node].body.text;
    ByteToCharIff(text, atByte, i);
    if ByteToChar(text, atByte).Some? { ByteToCharIff(text, atByte, ByteToChar(text, atByte).value); }
    hide Split, ByteToChar, Utf8Length;
  }

  /** The same by character offset; one outside the text is refused. */
  function Split(t: Tree, node: OpId, at: int): Option<Tree>
    requires WellFormed(t)
  {
    if node !in t.nodes || !t.nodes[node].body.Leaf? || at < 0 || at > |t.nodes[node].body.text|
        || t.nodes[node].parent.None? then None
    else
      Some(CommitLocal(t, SplitLeaf(node, NextId(t), KeyAfter(t, t.nodes[node].parent.value, Some(node)), at,
          t.nodes[node].textHead)))
  }

  function Merged(t: Tree, left: OpId, right: OpId): Option<Tree>
    requires WellFormed(t)
  {
    if left !in t.nodes || !t.nodes[left].body.Leaf? || right !in t.nodes || !t.nodes[right].body.Leaf?
        || t.nodes[left].parent.None? then None
    else
      var order := Children(t, t.nodes[left].parent.value);
      if left in order && IndexOf(order, left) + 1 < |order| && order[IndexOf(order, left) + 1] == right
      then Some(CommitLocal(t, MergeLeaves(left, right, t.nodes[left].textHead, t.nodes[right].textHead)))
      else None
  }
}
