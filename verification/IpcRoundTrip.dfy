/** Every message part is read back as it was written, alone and through the codec. */
module IpcRoundTrip {
  import opened Wrappers
  import opened Bytes
  import opened WireNames
  import opened Msgpack
  import opened MsgpackRoundTrip
  import opened IpcWire

  // ----- records -----

  predicate NamesDiffer(fields: seq<(Name, Tree)>) {
    forall i, j :: 0 <= i < j < |fields| ==> fields[i].0 != fields[j].0
  }

  lemma {:induction false} FindAt(members: seq<Member>, i: nat)
    requires i < |members| && KeysDiffer(members)
    ensures Find(members, members[i].key) == Some(members[i].value)
    decreases i
  {
    if i > 0 {
      assert members[0].key != members[i].key;
      FindAt(members[1..], i - 1);
    }
  }

  lemma {:induction false} FindNone(members: seq<Member>, key: Bytes)
    requires forall i :: 0 <= i < |members| ==> members[i].key != key
    ensures Find(members, key) == None
    decreases |members|
  {
    if members != [] { FindNone(members[1..], key); }
  }

  lemma {:induction false} RecKeys(fields: seq<(Name, Tree)>)
    requires NamesDiffer(fields)
    ensures KeysDiffer(Rec(fields).members)
  {
    hide Spelled;
    var ms := Rec(fields).members;
    forall i, j | 0 <= i < j < |ms| ensures ms[i].key != ms[j].key {
      SpelledDiffer(fields[i].0, fields[j].0);
    }
  }

  /** A field is found under its name. */
  lemma {:induction false} RecGet(fields: seq<(Name, Tree)>, i: nat)
    requires NamesDiffer(fields) && i < |fields|
    ensures Get(Rec(fields), fields[i].0) == Some(fields[i].1)
  {
    hide Spelled;
    RecKeys(fields);
    FindAt(Rec(fields).members, i);
  }

  lemma {:induction false} RecLacks(fields: seq<(Name, Tree)>, n: Name)
    requires forall i :: 0 <= i < |fields| ==> fields[i].0 != n
    ensures Get(Rec(fields), n) == None
  {
    hide Spelled;
    var ms := Rec(fields).members;
    forall i | 0 <= i < |ms| ensures ms[i].key != Spelled(n) {
      SpelledDiffer(fields[i].0, n);
    }
    FindNone(ms, Spelled(n));
  }

  lemma {:induction false} RecOnly(fields: seq<(Name, Tree)>, names: set<Name>)
    requires forall i :: 0 <= i < |fields| ==> fields[i].0 in names
    ensures Only(Rec(fields), names)
  {
    hide Spelled;
    var t := Rec(fields);
    forall i | 0 <= i < |t.members| ensures Declared(t.members[i].key, names) {
      assert fields[i].0 in names && t.members[i].key == Spelled(fields[i].0);
    }
  }

  /** Valid UTF-8 is left to the caller, who grants it to the names of the wire. */
  ghost predicate NamesLegible(utf8: Utf8) {
    forall n: Name :: utf8(Spelled(n))
  }

  lemma {:induction false} RecLegible(utf8: Utf8, fields: seq<(Name, Tree)>)
    requires NamesLegible(utf8) && NamesDiffer(fields)
    requires forall i :: 0 <= i < |fields| ==> Legible(utf8, fields[i].1)
    ensures Legible(utf8, Rec(fields))
  {
    RecKeys(fields);
    hide Spelled, KeysDiffer;
    var ms := Rec(fields).members;
    forall i | 0 <= i < |ms| ensures utf8(ms[i].key) && Legible(utf8, ms[i].value) {
      assert ms[i].key == Spelled(fields[i].0) && ms[i].value == fields[i].1;
    }
  }

  /** A tagged body is one variant and no other. */
  lemma {:induction false} TaggedIs(tag: Name, body: Tree, other: Name)
    ensures Variant(Tagged(tag, body), other) == if other == tag then Some(body) else None
  {
    hide Spelled;
    if other != tag { SpelledDiffer(tag, other); }
  }

  lemma {:induction false} TaggedLegible(utf8: Utf8, tag: Name, body: Tree)
    requires NamesLegible(utf8) && Legible(utf8, body)
    ensures Legible(utf8, Tagged(tag, body))
  {
    RecLegible(utf8, [(tag, body)]);
  }

  lemma {:induction false} IntLegible(utf8: Utf8, n: int)
    ensures Legible(utf8, Int(n))
  {
  }

  lemma {:induction false} BytesRound(utf8: Utf8, data: Bytes)
    ensures BytesFrom(BytesTo(data)) == Some(data) && Legible(utf8, BytesTo(data))
  {
    var items := BytesTo(data).items;
    forall i | 0 <= i < |items| ensures Legible(utf8, items[i]) && items[i].Int? && 0 <= items[i].n <= 255 {
      assert items[i] == Int(data[i]);
    }
    assert seq(|items|, i requires 0 <= i < |items| => items[i].n) == data;
  }

  /** A list is read back when each of its elements is. */
  lemma {:induction false} ListRound<T>(utf8: Utf8, xs: seq<T>, f: T -> Tree, g: Tree -> Option<T>)
    requires forall i :: 0 <= i < |xs| ==> g(f(xs[i])) == Some(xs[i]) && Legible(utf8, f(xs[i]))
    ensures ListFrom(Some(ListTo(xs, f)), g) == Some(xs) && Legible(utf8, ListTo(xs, f))
  {
    CollectedRound(xs, f, g);
  }

  lemma {:induction false} CollectedRound<T>(xs: seq<T>, f: T -> Tree, g: Tree -> Option<T>)
    requires forall i :: 0 <= i < |xs| ==> g(f(xs[i])) == Some(xs[i])
    ensures Collected(ListTo(xs, f).items, g) == Some(xs)
    decreases |xs|
  {
    if xs != [] {
      assert ListTo(xs, f).items[1..] == ListTo(xs[1..], f).items;
      CollectedRound(xs[1..], f, g);
      assert xs == [xs[0]] + xs[1..];
    }
  }

  // ----- parts -----

  lemma {:induction false} BlobNames(b: BlobRef, more: seq<(Name, Tree)>)
    requires |more| <= 1 && forall i :: 0 <= i < |more| ==> more[i].0 == BACKEND
    ensures NamesDiffer(BlobFields(b) + more)
  {
    var five := BlobFields(b);
    assert NamesDiffer(five) && forall i :: 0 <= i < |five| ==> five[i].0 != BACKEND;
  }

  /** The five numbers of a descriptor, whatever follows them. */
  lemma {:induction false} BlobNumbers(b: BlobRef, more: seq<(Name, Tree)>)
    requires |more| <= 1 && forall i :: 0 <= i < |more| ==> more[i].0 == BACKEND
    ensures var t := Rec(BlobFields(b) + more);
            && Get(t, OFFSET) == Some(Int(b.offset)) && Get(t, LEN) == Some(Int(b.len))
            && Get(t, GENERATION) == Some(Int(b.generation)) && Get(t, EPOCH) == Some(Int(b.epoch))
            && Get(t, CHECKSUM) == Some(Int(b.checksum))
            && Get(t, BACKEND) == if more == [] then None else Some(more[0].1)
    ensures NamesDiffer(BlobFields(b) + more)
  {
    BlobNames(b, more);
    hide Rec, Get, NamesDiffer;
    BlobNumber(b, more, 0);
    BlobNumber(b, more, 1);
    BlobNumber(b, more, 2);
    BlobNumber(b, more, 3);
    BlobNumber(b, more, 4);
    BlobBackend(b, more);
  }

  lemma {:induction false} BlobNumber(b: BlobRef, more: seq<(Name, Tree)>, i: nat)
    requires i < 5 && NamesDiffer(BlobFields(b) + more)
    ensures Get(Rec(BlobFields(b) + more), BlobFields(b)[i].0) == Some(BlobFields(b)[i].1)
  {
    assert |BlobFields(b)| == 5;
    hide Rec, Get, NamesDiffer, BlobFields;
    RecGet(BlobFields(b) + more, i);
  }

  lemma {:induction false} BlobBackend(b: BlobRef, more: seq<(Name, Tree)>)
    requires |more| <= 1 && forall i :: 0 <= i < |more| ==> more[i].0 == BACKEND
    requires NamesDiffer(BlobFields(b) + more)
    ensures Get(Rec(BlobFields(b) + more), BACKEND) == if more == [] then None else Some(more[0].1)
  {
    hide Rec, Get, NamesDiffer;
    if more == [] { RecLacks(BlobFields(b) + more, BACKEND); } else { RecGet(BlobFields(b) + more, 5); }
  }

  lemma {:induction false} BackendRound(utf8: Utf8, b: Backend)
    requires NamesLegible(utf8)
    ensures BackendFrom(if b.Shm? then None else Some(BackendFields(b)[0].1)) == Some(b)
    ensures forall i :: 0 <= i < |BackendFields(b)| ==> Legible(utf8, BackendFields(b)[i].1)
  {
    SpelledDiffer(ARROW, SHM);
    SpelledDiffer(IN_PROCESS, SHM);
    SpelledDiffer(IN_PROCESS, ARROW);
    hide Spelled;
  }

  lemma {:induction false} BlobRound(utf8: Utf8, b: BlobRef)
    requires NamesLegible(utf8)
    ensures BlobFrom(BlobTo(b)) == Some(b) && Legible(utf8, BlobTo(b))
  {
    BackendRound(utf8, b.backend);
    BlobNumbers(b, BackendFields(b.backend));
    hide Rec, Get, BackendFrom, NamesLegible, NamesDiffer;
    var fields := BlobFields(b) + BackendFields(b.backend);
    forall i | 0 <= i < |fields| ensures Legible(utf8, fields[i].1) {
      if i >= 5 { assert fields[i] == BackendFields(b.backend)[i - 5]; }
    }
    RecLegible(utf8, fields);
  }

  lemma {:induction false} NameLegible(utf8: Utf8, n: Name)
    requires NamesLegible(utf8)
    ensures utf8(Spelled(n))
  {
  }

  lemma {:induction false} ValueRound(utf8: Utf8, v: IpcValue)
    requires NamesLegible(utf8)
    ensures ValueFrom(Some(ValueTo(v))) == Some(v) && Legible(utf8, ValueTo(v))
  {
    hide Tagged, Variant, BlobTo, BlobFrom, BytesTo, BytesFrom, Legible, NamesLegible;
    match v
    case Inline(data) =>
      BytesRound(utf8, data);
      TaggedIs(INLINE, BytesTo(data), INLINE);
      TaggedLegible(utf8, INLINE, BytesTo(data));
    case SharedBlob(blob) =>
      BlobRound(utf8, blob);
      TaggedIs(SHARED_BLOB, BlobTo(blob), INLINE);
      TaggedIs(SHARED_BLOB, BlobTo(blob), SHARED_BLOB);
      TaggedLegible(utf8, SHARED_BLOB, BlobTo(blob));
  }

  lemma {:induction false} StateRound(utf8: Utf8, s: NodeState)
    requires NamesLegible(utf8)
    ensures StateFrom(Some(StateTo(s))) == Some(s) && Legible(utf8, StateTo(s))
  {
    hide Variant, BlobTo, BlobFrom, BytesTo, BytesFrom, NamesLegible, Spelled;
    match s
    case Payload(data) =>
      BytesRound(utf8, data);
      TaggedIs(PAYLOAD_TAG, BytesTo(data), PAYLOAD_TAG);
      TaggedLegible(utf8, PAYLOAD_TAG, BytesTo(data));
    case SharedState(blob) =>
      BlobRound(utf8, blob);
      TaggedIs(SHARED_BLOB, BlobTo(blob), PAYLOAD_TAG);
      TaggedIs(SHARED_BLOB, BlobTo(blob), SHARED_BLOB);
      TaggedLegible(utf8, SHARED_BLOB, BlobTo(blob));
    case Opaque =>
      NameLegible(utf8, OPAQUE);
  }

  predicate InU64(n: int) {
    0 <= n <= U64_MAX
  }

  predicate KeyFit(utf8: Utf8, key: Option<Bytes>) {
    key.Some? ==> KeyValid(key.value) && utf8(key.value)
  }

  lemma {:induction false} AddBodyRound(utf8: Utf8, node: int, typeTag: Bytes, state: NodeState, key: Option<Bytes>)
    requires NamesLegible(utf8) && utf8(typeTag) && KeyFit(utf8, key)
    ensures var t := AddBody(node, typeTag, state, key);
            Get(t, NODE) == Some(Int(node)) && Get(t, TYPE_TAG) == Some(Str(typeTag)) && StateFrom(Get(t, STATE))
                == Some(state)
            && KeyFrom(Get(t, KEY)) == Some(key) && Only(t, {NODE, TYPE_TAG, STATE, KEY}) && Legible(utf8, t)
  {
    hide Rec, Get, StateTo, StateFrom, NamesLegible, KeyValid, Only;
    var fields := [(NODE, Int(node)), (TYPE_TAG, Str(typeTag)), (STATE, StateTo(state))] + if key.None? then []
        else [(KEY, Str(key.value))];
    RecGet(fields, 0);
    RecGet(fields, 1);
    RecGet(fields, 2);
    StateRound(utf8, state);
    if key.None? { RecLacks(fields, KEY); } else { RecGet(fields, 3); }
    RecOnly(fields, {NODE, TYPE_TAG, STATE, KEY});
    RecLegible(utf8, fields);
  }

  lemma {:induction false} NodeBodyRound(utf8: Utf8, node: int)
    requires NamesLegible(utf8) && InU64(node)
    ensures NodeFrom(NodeBody(node)) == Some(node) && Legible(utf8, NodeBody(node))
  {
    hide Rec, Get, NamesLegible, Only;
    var fields := [(NODE, Int(node))];
    RecGet(fields, 0);
    RecOnly(fields, {NODE});
    RecLegible(utf8, fields);
  }

  lemma {:induction false} PayloadBodyRound(utf8: Utf8, node: int, payload: IpcValue)
    requires NamesLegible(utf8) && InU64(node)
    ensures PayloadFrom(PayloadBody(node, payload)) == Some((node, payload))
    ensures Legible(utf8, PayloadBody(node, payload))
  {
    hide Rec, Get, NamesLegible, Only, ValueTo, ValueFrom;
    var fields := [(NODE, Int(node)), (PAYLOAD, ValueTo(payload))];
    RecGet(fields, 0);
    RecGet(fields, 1);
    ValueRound(utf8, payload);
    RecOnly(fields, {NODE, PAYLOAD});
    RecLegible(utf8, fields);
  }

  lemma {:induction false} EdgeBodyRound(utf8: Utf8, a: int, b: int)
    requires NamesLegible(utf8)
    ensures EdgeSnapshotFrom(EdgeBody(a, b)) == Some(EdgeSnapshot(a, b)) && Legible(utf8, EdgeBody(a, b))
    ensures InU64(a) && InU64(b) ==> EdgeFrom(EdgeBody(a, b)) == Some((a, b))
  {
    hide Rec, Get, NamesLegible, Only;
    var fields := [(DEPENDENT, Int(a)), (DEPENDENCY, Int(b))];
    RecGet(fields, 0);
    RecGet(fields, 1);
    RecOnly(fields, {DEPENDENT, DEPENDENCY});
    RecLegible(utf8, fields);
  }

  // ----- deltas -----

  predicate OpFit(utf8: Utf8, op: DeltaOp) {
    match op
    case EdgeAdd(a, b) => InU64(a) && InU64(b)
    case EdgeRemove(a, b) => InU64(a) && InU64(b)
    case NodeAdd(n, tag, _, key) => InU64(n) && utf8(tag) && KeyFit(utf8, key)
    case _ => InU64(op.node)
  }

  lemma {:induction false} OpTags(tag: Name, body: Tree)
    ensures forall other :: Variant(Tagged(tag, body), other) == if other == tag then Some(body) else None
  {
    forall other ensures Variant(Tagged(tag, body), other) == if other == tag then Some(body) else None {
      TaggedIs(tag, body, other);
    }
  }

  lemma {:induction false} OpRound(utf8: Utf8, op: DeltaOp)
    requires NamesLegible(utf8) && OpFit(utf8, op)
    ensures OpFrom(OpTo(op)) == Some(op) && Legible(utf8, OpTo(op))
  {
    hide OpFrom, OpTo, NamesLegible, Legible, KeyFit;
    match op
    case CellSet(_, _) => PayloadOpRound(utf8, op);
    case SlotValue(_, _) => PayloadOpRound(utf8, op);
    case QueuePush(_, _) => PayloadOpRound(utf8, op);
    case NodeAdd(_, _, _, _) => AddOpRound(utf8, op);
    case EdgeAdd(_, _) => EdgeOpRound(utf8, op);
    case EdgeRemove(_, _) => EdgeOpRound(utf8, op);
    case _ => NodeOpRound(utf8, op);
  }

  lemma {:induction false} TagFound(n: Name, tags: seq<Name>)
    requires n in tags
    ensures TagIn(Spelled(n), tags) == Some(n)
    decreases |tags|
  {
    hide Spelled;
    if n != tags[0] {
      SpelledDiffer(n, tags[0]);
      TagFound(n, tags[1..]);
    }
  }

  /** A tagged body is read as the variant of its tag. */
  lemma {:induction false} OpTagged(utf8: Utf8, tag: Name, body: Tree)
    requires tag in OP_TAGS && NamesLegible(utf8) && Legible(utf8, body)
    ensures OpFrom(Tagged(tag, body)) == OpOf(tag, body) && Legible(utf8, Tagged(tag, body))
  {
    TaggedLegible(utf8, tag, body);
    hide OpOf, Spelled, TagIn, Legible, NamesLegible;
    TagFound(tag, OP_TAGS);
  }

  lemma {:induction false} PayloadOpRound(utf8: Utf8, op: DeltaOp)
    requires NamesLegible(utf8) && OpFit(utf8, op) && (op.CellSet? || op.SlotValue? || op.QueuePush?)
    ensures OpFrom(OpTo(op)) == Some(op) && Legible(utf8, OpTo(op))
  {
    hide Tagged, OpFrom, PayloadBody, PayloadFrom, NamesLegible, Legible;
    var body := PayloadBody(op.node, op.payload);
    PayloadBodyRound(utf8, op.node, op.payload);
    match op
    case CellSet(_, _) => OpTagged(utf8, OP_TAGS[0], body);
    case SlotValue(_, _) => OpTagged(utf8, OP_TAGS[1], body);
    case QueuePush(_, _) => OpTagged(utf8, OP_TAGS[7], body);
  }

  lemma {:induction false} NodeOpRound(utf8: Utf8, op: DeltaOp)
    requires NamesLegible(utf8) && OpFit(utf8, op)
    requires (op.Invalidate? || op.NodeRemove? || op.QueuePop? || op.QueueClose?)
    ensures OpFrom(OpTo(op)) == Some(op) && Legible(utf8, OpTo(op))
  {
    hide Tagged, OpFrom, NodeBody, NodeFrom, NamesLegible, Legible;
    var body := NodeBody(op.node);
    NodeBodyRound(utf8, op.node);
    match op
    case Invalidate(_) => OpTagged(utf8, OP_TAGS[2], body);
    case NodeRemove(_) => OpTagged(utf8, OP_TAGS[4], body);
    case QueuePop(_) => OpTagged(utf8, OP_TAGS[8], body);
    case QueueClose(_) => OpTagged(utf8, OP_TAGS[9], body);
  }

  lemma {:induction false} EdgeOpRound(utf8: Utf8, op: DeltaOp)
    requires NamesLegible(utf8) && OpFit(utf8, op) && (op.EdgeAdd? || op.EdgeRemove?)
    ensures OpFrom(OpTo(op)) == Some(op) && Legible(utf8, OpTo(op))
  {
    hide Tagged, OpFrom, EdgeBody, EdgeFrom, EdgeSnapshotFrom, NamesLegible, Legible;
    var body := EdgeBody(op.dependent, op.dependency);
    EdgeBodyRound(utf8, op.dependent, op.dependency);
    if op.EdgeAdd? {
      OpTagged(utf8, OP_TAGS[5], body);
    } else {
      OpTagged(utf8, OP_TAGS[6], body);
    }
  }

  lemma {:induction false} AddOpRound(utf8: Utf8, op: DeltaOp)
    requires NamesLegible(utf8) && OpFit(utf8, op) && op.NodeAdd?
    ensures OpFrom(OpTo(op)) == Some(op) && Legible(utf8, OpTo(op))
  {
    hide Tagged, OpFrom, AddBody, Get, StateFrom, KeyFrom, Only, NamesLegible, Legible, KeyFit;
    AddBodyRound(utf8, op.node, op.typeTag, op.state, op.key);
    OpTagged(utf8, OP_TAGS[3], AddBody(op.node, op.typeTag, op.state, op.key));
  }

  predicate DeltaFit(utf8: Utf8, d: Delta) {
    InU64(d.baseEpoch) && InU64(d.epoch) && forall i :: 0 <= i < |d.ops| ==> OpFit(utf8, d.ops[i])
  }

  lemma {:induction false} OpsRound(utf8: Utf8, d: Delta)
    requires NamesLegible(utf8) && DeltaFit(utf8, d)
    ensures ListFrom(Some(ListTo(d.ops, OpTo)), OpFrom) == Some(d.ops) && Legible(utf8, ListTo(d.ops, OpTo))
  {
    hide NamesLegible, OpTo, OpFrom, OpFit, ListTo, ListFrom, Legible;
    forall i | 0 <= i < |d.ops| ensures OpFrom(OpTo(d.ops[i])) == Some(d.ops[i]) && Legible(utf8, OpTo(d.ops[i])) {
      OpRound(utf8, d.ops[i]);
    }
    ListRound(utf8, d.ops, OpTo, OpFrom);
  }

  lemma {:induction false} DeltaRound(utf8: Utf8, d: Delta)
    requires NamesLegible(utf8) && DeltaFit(utf8, d)
    ensures DeltaFrom(DeltaTo(d)) == Some(d) && Legible(utf8, DeltaTo(d))
  {
    hide Rec, Get, NamesLegible, Only, OpTo, OpFrom, OpFit, ListTo, ListFrom, Legible;
    OpsRound(utf8, d);
    IntLegible(utf8, d.baseEpoch);
    IntLegible(utf8, d.epoch);
    var fields := [(BASE_EPOCH, Int(d.baseEpoch)), (EPOCH, Int(d.epoch)), (OPS, ListTo(d.ops, OpTo))];
    RecGet(fields, 0);
    RecGet(fields, 1);
    RecGet(fields, 2);
    RecOnly(fields, {BASE_EPOCH, EPOCH, OPS});
    RecLegible(utf8, fields);
  }

  // ----- snapshots -----

  predicate SnapshotFit(utf8: Utf8, s: Snapshot) {
    forall i :: 0 <= i < |s.nodes| ==> utf8(s.nodes[i].typeTag) && KeyFit(utf8, s.nodes[i].key)
  }

  lemma {:induction false} NodeSnapshotRound(utf8: Utf8, n: NodeSnapshot)
    requires NamesLegible(utf8) && utf8(n.typeTag) && KeyFit(utf8, n.key)
    ensures NodeSnapshotFrom(NodeSnapshotTo(n)) == Some(n) && Legible(utf8, NodeSnapshotTo(n))
  {
    hide AddBody, Get, StateFrom, KeyFrom, NamesLegible, KeyFit, Legible, Only;
    AddBodyRound(utf8, n.node, n.typeTag, n.state, n.key);
  }

  lemma {:induction false} NodesRound(utf8: Utf8, s: Snapshot)
    requires NamesLegible(utf8) && SnapshotFit(utf8, s)
    ensures ListFrom(Some(ListTo(s.nodes, NodeSnapshotTo)), NodeSnapshotFrom) == Some(s.nodes)
    ensures Legible(utf8, ListTo(s.nodes, NodeSnapshotTo))
  {
    hide NamesLegible, NodeSnapshotTo, NodeSnapshotFrom, KeyFit, ListTo, ListFrom, Legible;
    forall i | 0 <= i < |s.nodes|
      ensures NodeSnapshotFrom(NodeSnapshotTo(s.nodes[i])) == Some(s.nodes[i])
      ensures Legible(utf8, NodeSnapshotTo(s.nodes[i]))
    {
      NodeSnapshotRound(utf8, s.nodes[i]);
    }
    ListRound(utf8, s.nodes, NodeSnapshotTo, NodeSnapshotFrom);
  }

  lemma {:induction false} EdgesRound(utf8: Utf8, s: Snapshot)
    requires NamesLegible(utf8)
    ensures ListFrom(Some(ListTo(s.edges, EdgeSnapshotTo)), EdgeSnapshotFrom) == Some(s.edges)
    ensures Legible(utf8, ListTo(s.edges, EdgeSnapshotTo))
  {
    hide NamesLegible, EdgeBody, EdgeSnapshotFrom, ListTo, ListFrom, Legible;
    forall i | 0 <= i < |s.edges|
      ensures EdgeSnapshotFrom(EdgeSnapshotTo(s.edges[i])) == Some(s.edges[i])
      ensures Legible(utf8, EdgeSnapshotTo(s.edges[i]))
    {
      EdgeBodyRound(utf8, s.edges[i].dependent, s.edges[i].dependency);
    }
    ListRound(utf8, s.edges, EdgeSnapshotTo, EdgeSnapshotFrom);
  }

  lemma {:induction false} RootsRound(utf8: Utf8, s: Snapshot)
    ensures ListFrom(Some(ListTo(s.roots, RootTo)), RootFrom) == Some(s.roots) && Legible(utf8, ListTo(s.roots, RootTo))
  {
    hide ListTo, ListFrom;
    ListRound(utf8, s.roots, RootTo, RootFrom);
  }

  lemma {:induction false} SnapshotRound(utf8: Utf8, s: Snapshot)
    requires NamesLegible(utf8) && SnapshotFit(utf8, s)
    ensures SnapshotFrom(SnapshotTo(s)) == Some(s) && Legible(utf8, SnapshotTo(s))
  {
    hide Rec, Get, NamesLegible, NodeSnapshotTo, NodeSnapshotFrom, EdgeSnapshotTo, EdgeSnapshotFrom, RootTo, RootFrom,
        SnapshotFit, ListTo, ListFrom, Legible;
    NodesRound(utf8, s);
    EdgesRound(utf8, s);
    RootsRound(utf8, s);
    IntLegible(utf8, s.epoch);
    var fields := [(EPOCH, Int(s.epoch)), (NODES, ListTo(s.nodes, NodeSnapshotTo)),
        (EDGES, ListTo(s.edges, EdgeSnapshotTo)), (ROOTS, ListTo(s.roots, RootTo))];
    RecGet(fields, 0);
    RecGet(fields, 1);
    RecGet(fields, 2);
    RecGet(fields, 3);
    RecLegible(utf8, fields);
  }

  // ----- the CRDT plane -----

  lemma {:induction false} StampRound(utf8: Utf8, st: WireStamp)
    requires NamesLegible(utf8)
    ensures StampFrom(Some(StampTo(st))) == Some(st) && Legible(utf8, StampTo(st))
  {
    hide Rec, Get, NamesLegible;
    var fields := [(WALL_TIME, Int(st.wallTime)), (LOGICAL, Int(st.logical)), (PEER, Int(st.peer))];
    RecGet(fields, 0);
    RecGet(fields, 1);
    RecGet(fields, 2);
    RecLegible(utf8, fields);
  }

  lemma {:induction false} CrdtOpRound(utf8: Utf8, op: CrdtOp)
    requires NamesLegible(utf8) && KeyFit(utf8, op.key)
    ensures CrdtOpFrom(CrdtOpTo(op)) == Some(op) && Legible(utf8, CrdtOpTo(op))
  {
    hide Rec, Get, NamesLegible, StampTo, StampFrom, ValueTo, ValueFrom, KeyValid, CrdtOpTo, Legible;
    StampRound(utf8, op.stamp);
    ValueRound(utf8, op.state);
    CrdtOpFields(utf8, op);
  }

  lemma {:induction false} CrdtOpFields(utf8: Utf8, op: CrdtOp)
    requires NamesLegible(utf8) && KeyFit(utf8, op.key)
    requires Legible(utf8, StampTo(op.stamp)) && Legible(utf8, ValueTo(op.state))
    ensures var t := CrdtOpTo(op);
            && Legible(utf8, t) && Get(t, NODE) == Some(Int(op.node))
            && Get(t, KEY) == Some(if op.key.None? then Nil else Str(op.key.value))
            && Get(t, STAMP) == Some(StampTo(op.stamp)) && Get(t, STATE) == Some(ValueTo(op.state))
  {
    hide Rec, Get, NamesLegible, StampTo, ValueTo, KeyValid;
    var fields := [(NODE, Int(op.node)), (KEY, if op.key.None? then Nil else Str(op.key.value)),
        (STAMP, StampTo(op.stamp)), (STATE, ValueTo(op.state))];
    assert Legible(utf8, fields[0].1) && Legible(utf8, fields[1].1);
    hide Legible;
    RecGet(fields, 0);
    RecGet(fields, 1);
    RecGet(fields, 2);
    RecGet(fields, 3);
    RecLegible(utf8, fields);
  }

  lemma {:induction false} MarkRound(utf8: Utf8, m: (int, WireStamp))
    requires NamesLegible(utf8)
    ensures MarkFrom(MarkTo(m)) == Some(m) && Legible(utf8, MarkTo(m))
  {
    hide NamesLegible, StampTo, StampFrom;
    StampRound(utf8, m.1);
  }

  predicate SyncFit(utf8: Utf8, s: CrdtSync) {
    forall i :: 0 <= i < |s.ops| ==> KeyFit(utf8, s.ops[i].key)
  }

  lemma {:induction false} MarksRound(utf8: Utf8, s: CrdtSync)
    requires NamesLegible(utf8)
    ensures ListFrom(Some(ListTo(s.frontier, MarkTo)), MarkFrom) == Some(s.frontier)
    ensures Legible(utf8, ListTo(s.frontier, MarkTo))
  {
    hide NamesLegible, MarkTo, MarkFrom, ListTo, ListFrom, Legible;
    forall i | 0 <= i < |s.frontier|
      ensures MarkFrom(MarkTo(s.frontier[i])) == Some(s.frontier[i]) && Legible(utf8, MarkTo(s.frontier[i]))
    {
      MarkRound(utf8, s.frontier[i]);
    }
    ListRound(utf8, s.frontier, MarkTo, MarkFrom);
  }

  lemma {:induction false} CrdtOpsRound(utf8: Utf8, s: CrdtSync)
    requires NamesLegible(utf8) && SyncFit(utf8, s)
    ensures ListFrom(Some(ListTo(s.ops, CrdtOpTo)), CrdtOpFrom) == Some(s.ops) && Legible(utf8, ListTo(s.ops, CrdtOpTo))
  {
    hide NamesLegible, CrdtOpTo, CrdtOpFrom, KeyFit, ListTo, ListFrom, Legible;
    forall i | 0 <= i < |s.ops|
      ensures CrdtOpFrom(CrdtOpTo(s.ops[i])) == Some(s.ops[i]) && Legible(utf8, CrdtOpTo(s.ops[i]))
    {
      CrdtOpRound(utf8, s.ops[i]);
    }
    ListRound(utf8, s.ops, CrdtOpTo, CrdtOpFrom);
  }

  lemma {:induction false} SyncRound(utf8: Utf8, s: CrdtSync)
    requires NamesLegible(utf8) && SyncFit(utf8, s)
    ensures SyncFrom(SyncTo(s)) == Some(s) && Legible(utf8, SyncTo(s))
  {
    hide Get, NamesLegible, CrdtOpTo, CrdtOpFrom, MarkTo, MarkFrom, SyncFit, Spelled, ListTo, ListFrom, Legible;
    MarksRound(utf8, s);
    CrdtOpsRound(utf8, s);
    var fields := [(FRONTIER, ListTo(s.frontier, MarkTo)), (OPS, ListTo(s.ops, CrdtOpTo))];
    RecGet(fields, 0);
    RecGet(fields, 1);
    RecLegible(utf8, fields);
  }

  // ----- messages -----

  /** The texts are valid, the keys pass validation, and ids and epochs of deltas fit 64 bits. */
  predicate MessageFit(utf8: Utf8, m: IpcMessage) {
    && (m.snapshot.Some? ==> SnapshotFit(utf8, m.snapshot.value))
    && (m.delta.Some? ==> DeltaFit(utf8, m.delta.value))
    && (m.crdtSync.Some? ==> SyncFit(utf8, m.crdtSync.value))
  }

  function PartCount(m: IpcMessage): nat {
    (if m.snapshot.Some? then 1 else 0) + (if m.delta.Some? then 1 else 0) + (if m.crdtSync.Some? then 1 else 0)
    + (if m.resyncRequest.Some? then 1 else 0) + (if m.outboxAck.Some? then 1 else 0)
  }

  /** The first part alone. */
  function FirstPart(m: IpcMessage): IpcMessage {
    if m.snapshot.Some? then NO_MESSAGE.(snapshot := m.snapshot)
    else if m.delta.Some? then NO_MESSAGE.(delta := m.delta)
    else if m.crdtSync.Some? then NO_MESSAGE.(crdtSync := m.crdtSync)
    else if m.resyncRequest.Some? then NO_MESSAGE.(resyncRequest := m.resyncRequest)
    else NO_MESSAGE.(outboxAck := m.outboxAck)
  }

  /** What arrives is the first part of what was sent. */
  lemma {:induction false} WireCarriesFirst(utf8: Utf8, m: IpcMessage)
    requires NamesLegible(utf8) && MessageFit(utf8, m) && PartCount(m) > 0
    ensures ToWire(m).Some? && FromWire(ToWire(m).value) == Some(FirstPart(m)) && Legible(utf8, ToWire(m).value)
  {
    hide Tagged, Variant, SnapshotTo, SnapshotFrom, DeltaTo, DeltaFrom, SyncTo, SyncFrom, NamesLegible, Legible,
        SnapshotFit, DeltaFit, SyncFit, Rec, Get;
    if m.snapshot.Some? {
      SnapshotRound(utf8, m.snapshot.value);
      OpTags(SNAPSHOT, SnapshotTo(m.snapshot.value));
      TaggedLegible(utf8, SNAPSHOT, SnapshotTo(m.snapshot.value));
    } else if m.delta.Some? {
      DeltaRound(utf8, m.delta.value);
      OpTags(DELTA, DeltaTo(m.delta.value));
      TaggedLegible(utf8, DELTA, DeltaTo(m.delta.value));
    } else if m.crdtSync.Some? {
      SyncRound(utf8, m.crdtSync.value);
      OpTags(CRDT_SYNC, SyncTo(m.crdtSync.value));
      TaggedLegible(utf8, CRDT_SYNC, SyncTo(m.crdtSync.value));
    } else {
      ControlCarried(utf8, m);
    }
  }

  lemma {:induction false} ControlCarried(utf8: Utf8, m: IpcMessage)
    requires NamesLegible(utf8) && MessageFit(utf8, m) && (m.resyncRequest.Some? || m.outboxAck.Some?)
    requires m.snapshot.None? && m.delta.None? && m.crdtSync.None?
    ensures ToWire(m).Some? && FromWire(ToWire(m).value) == Some(FirstPart(m)) && Legible(utf8, ToWire(m).value)
  {
    hide Tagged, Variant, SnapshotFrom, DeltaFrom, SyncFrom, NamesLegible, Legible, Rec, Get;
    if m.resyncRequest.Some? {
      EpochRound(utf8, FROM_EPOCH, m.resyncRequest.value);
      OpTags(RESYNC_REQUEST, RequestTo(m.resyncRequest.value));
      TaggedLegible(utf8, RESYNC_REQUEST, RequestTo(m.resyncRequest.value));
    } else {
      EpochRound(utf8, THROUGH_EPOCH, m.outboxAck.value);
      OpTags(OUTBOX_ACK, AckTo(m.outboxAck.value));
      TaggedLegible(utf8, OUTBOX_ACK, AckTo(m.outboxAck.value));
    }
  }

  lemma {:induction false} EpochRound(utf8: Utf8, n: Name, epoch: int)
    requires NamesLegible(utf8)
    ensures IntFrom(Get(Rec([(n, Int(epoch))]), n)) == Some(epoch) && Legible(utf8, Rec([(n, Int(epoch))]))
  {
    hide Rec, Get, NamesLegible;
    RecGet([(n, Int(epoch))], 0);
    RecLegible(utf8, [(n, Int(epoch))]);
  }

  /** Round trip over the wire tree: a fit message is read back exactly when it has one part. */
  lemma {:induction false} WireRoundTripIff(utf8: Utf8, m: IpcMessage)
    requires NamesLegible(utf8) && MessageFit(utf8, m)
    ensures PartCount(m) == 1 <==> ToWire(m).Some? && FromWire(ToWire(m).value) == Some(m)
  {
    hide SnapshotTo, DeltaTo, SyncTo, SnapshotFit, DeltaFit, SyncFit, FromWire, Tagged, RequestTo, AckTo,
        NamesLegible, Legible;
    if PartCount(m) > 0 {
      WireCarriesFirst(utf8, m);
      assert FirstPart(m) == m <==> PartCount(m) == 1;
    }
  }

  /** `decode_msgpack(encode_msgpack(m)) == m` for every fit message of one part whose
      integers and lengths MessagePack can carry. */
  lemma {:induction false} CodecRoundTrip(utf8: Utf8, m: IpcMessage)
    requires NamesLegible(utf8) && MessageFit(utf8, m) && PartCount(m) == 1
    ensures ToWire(m).Some?
    ensures if Encodable(ToWire(m).value) then EncodeMsgpack(m).Some? && DecodeMsgpack(utf8, EncodeMsgpack(m).value)
        == Some(m)
            else EncodeMsgpack(m) == None
  {
    hide ToWire, FromWire, Pack, Unpacked, Legible, Encodable, NamesLegible, MessageFit;
    WireRoundTripIff(utf8, m);
    WireCarriesFirst(utf8, m);
    PacksIff(ToWire(m).value);
    if Encodable(ToWire(m).value) {
      RoundTrip(utf8, ToWire(m).value);
    }
  }
}
