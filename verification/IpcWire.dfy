/** The wire mapping of IPC messages: `to_wire` and `from_wire` of `src/lazily/ipc.py`,
    `src/lazily/_delta_wire_gen.py` and `src/lazily/_wire_scalars.py`. */
module IpcWire {
  import opened Wrappers
  import opened Bytes
  import opened WireNames
  import opened Msgpack

  const U64_MAX := 0xFFFF_FFFF_FFFF_FFFF
  const NODE_KEY_MAX_LEN := 1024
  const NODE_KEY_MAX_SEGMENTS := 32
  const SLASH: Byte := 47

  // ----- records -----

  /** A dictionary with these fields, in this order. */
  function Rec(fields: seq<(Name, Tree)>): Tree {
    Map(seq(|fields|, i requires 0 <= i < |fields| => Member(Spelled(fields[i].0), fields[i].1)))
  }

  function Tagged(tag: Name, body: Tree): Tree {
    Rec([(tag, body)])
  }

  function Find(members: seq<Member>, key: Bytes): Option<Tree>
    decreases |members|
  {
    if members == [] then None else if members[0].key == key then Some(members[0].value) else Find(members[1..], key)
  }

  function Get(t: Tree, n: Name): Option<Tree> {
    if t.Map? then Find(t.members, Spelled(n)) else None
  }

  predicate Declared(key: Bytes, names: set<Name>) {
    exists n :: n in names && key == Spelled(n)
  }

  /** No other key than these. */
  predicate Only(t: Tree, names: set<Name>) {
    t.Map? && forall i :: 0 <= i < |t.members| ==> Declared(t.members[i].key, names)
  }

  /** The value under the tag of a single-key dictionary. */
  function Variant(t: Tree, tag: Name): Option<Tree> {
    if t.Map? && |t.members| == 1 && t.members[0].key == Spelled(tag) then Some(t.members[0].value) else None
  }

  function IntFrom(t: Option<Tree>): Option<int> {
    if t.Some? && t.value.Int? then Some(t.value.n) else None
  }

  function U64From(t: Option<Tree>): Option<int> {
    if t.Some? && t.value.Int? && 0 <= t.value.n <= U64_MAX then Some(t.value.n) else None
  }

  function StrFrom(t: Option<Tree>): Option<Bytes> {
    if t.Some? && t.value.Str? then Some(t.value.utf8) else None
  }

  function BytesTo(data: Bytes): Tree {
    Arr(seq(|data|, i requires 0 <= i < |data| => Int(data[i])))
  }

  /** `_wire_bytes`: an array of integers from 0 to 255. */
  function BytesFrom(t: Tree): Option<Bytes> {
    if t.Arr? && forall i :: 0 <= i < |t.items| ==> t.items[i].Int? && 0 <= t.items[i].n <= 255
    then Some(seq(|t.items|, i requires 0 <= i < |t.items| => t.items[i].n))
    else None
  }

  function ListTo<T>(xs: seq<T>, f: T -> Tree): Tree {
    Arr(seq(|xs|, i requires 0 <= i < |xs| => f(xs[i])))
  }

  function Collected<T>(items: seq<Tree>, f: Tree -> Option<T>): Option<seq<T>>
    decreases |items|
  {
    if items == [] then Some([])
    else
      var first := f(items[0]);
      var rest := Collected(items[1..], f);
      if first.None? || rest.None? then None else Some([first.value] + rest.value)
  }

  function ListFrom<T>(t: Option<Tree>, f: Tree -> Option<T>): Option<seq<T>> {
    if t.Some? && t.value.Arr? then Collected(t.value.items, f) else None
  }

  /** A missing list reads as empty. */
  function ListOrEmpty<T>(t: Option<Tree>, f: Tree -> Option<T>): Option<seq<T>> {
    if t.None? then Some([]) else ListFrom(t, f)
  }

  // ----- scalars and descriptors -----

  function Segments(path: Bytes): nat
    decreases |path|
  {
    if path == [] then 1 else (if path[0] == SLASH then 1 else 0) + Segments(path[1..])
  }

  /** `NodeKey._validate`. */
  predicate KeyValid(path: Bytes) {
    && 0 < |path| <= NODE_KEY_MAX_LEN
    && path[0] != SLASH && path[|path| - 1] != SLASH
    && (forall i :: 0 < i < |path| ==> !(path[i - 1] == SLASH && path[i] == SLASH))
    && Segments(path) <= NODE_KEY_MAX_SEGMENTS
  }

  /** Absent and null both read as no key. */
  function KeyFrom(t: Option<Tree>): Option<Option<Bytes>> {
    if t.None? || t.value.Nil? then Some(None)
    else if t.value.Str? && KeyValid(t.value.utf8) then Some(Some(t.value.utf8)) else None
  }

  datatype Backend = Shm | Arrow | InProcess

  datatype BlobRef = BlobRef(offset: int, len: int, generation: int, epoch: int, checksum: int, backend: Backend)

  function BlobFields(b: BlobRef): seq<(Name, Tree)> {
    [(OFFSET, Int(b.offset)), (LEN, Int(b.len)), (GENERATION, Int(b.generation)), (EPOCH, Int(b.epoch)),
        (CHECKSUM, Int(b.checksum))]
  }

  /** The default backend is not written. */
  function BackendFields(b: Backend): seq<(Name, Tree)> {
    match b
    case Shm => []
    case Arrow => [(BACKEND, Str(Spelled(ARROW)))]
    case InProcess => [(BACKEND, Str(Spelled(IN_PROCESS)))]
  }

  function BlobTo(b: BlobRef): Tree {
    Rec(BlobFields(b) + BackendFields(b.backend))
  }

  function BackendFrom(t: Option<Tree>): Option<Backend> {
    if t.None? || t.value.Nil? then Some(Shm)
    else if t.value == Str(Spelled(SHM)) then Some(Shm)
    else if t.value == Str(Spelled(ARROW)) then Some(Arrow)
    else if t.value == Str(Spelled(IN_PROCESS)) then Some(InProcess)
    else None
  }

  function BlobFrom(t: Tree): Option<BlobRef> {
    var o, l, g := IntFrom(Get(t, OFFSET)), IntFrom(Get(t, LEN)), IntFrom(Get(t, GENERATION));
    var e, c, b := IntFrom(Get(t, EPOCH)), IntFrom(Get(t, CHECKSUM)), BackendFrom(Get(t, BACKEND));
    if o.None? || l.None? || g.None? || e.None? || c.None? || b.None? then None
    else Some(BlobRef(o.value, l.value, g.value, e.value, c.value, b.value))
  }

  datatype IpcValue = Inline(data: Bytes) | SharedBlob(blob: BlobRef)

  function ValueTo(v: IpcValue): Tree {
    match v
    case Inline(data) => Tagged(INLINE, BytesTo(data))
    case SharedBlob(blob) => Tagged(SHARED_BLOB, BlobTo(blob))
  }

  function ValueFrom(t: Option<Tree>): Option<IpcValue> {
    if t.None? then None
    else
      var i, s := Variant(t.value, INLINE), Variant(t.value, SHARED_BLOB);
      if i.Some? then var d := BytesFrom(i.value); if d.None? then None else Some(Inline(d.value))
      else if s.Some? then var b := BlobFrom(s.value); if b.None? then None else Some(SharedBlob(b.value))
      else None
  }

  datatype NodeState = Payload(data: Bytes) | SharedState(blob: BlobRef) | Opaque

  function StateTo(s: NodeState): Tree {
    match s
    case Payload(data) => Tagged(PAYLOAD_TAG, BytesTo(data))
    case SharedState(blob) => Tagged(SHARED_BLOB, BlobTo(blob))
    case Opaque => Str(Spelled(OPAQUE))
  }

  function StateFrom(t: Option<Tree>): Option<NodeState> {
    if t.None? then None
    else if t.value.Str? then if t.value.utf8 == Spelled(OPAQUE) then Some(Opaque) else None
    else
      var p, s := Variant(t.value, PAYLOAD_TAG), Variant(t.value, SHARED_BLOB);
      if p.Some? then var d := BytesFrom(p.value); if d.None? then None else Some(Payload(d.value))
      else if s.Some? then var b := BlobFrom(s.value); if b.None? then None else Some(SharedState(b.value))
      else None
  }

  // ----- deltas -----

  datatype DeltaOp =
    | CellSet(node: int, payload: IpcValue)
    | SlotValue(node: int, payload: IpcValue)
    | Invalidate(node: int)
    | NodeAdd(node: int, typeTag: Bytes, state: NodeState, key: Option<Bytes>)
    | NodeRemove(node: int)
    | EdgeAdd(dependent: int, dependency: int)
    | EdgeRemove(dependent: int, dependency: int)
    | QueuePush(node: int, payload: IpcValue)
    | QueuePop(node: int)
    | QueueClose(node: int)

  function NodeBody(node: int): Tree {
    Rec([(NODE, Int(node))])
  }

  function PayloadBody(node: int, payload: IpcValue): Tree {
    Rec([(NODE, Int(node)), (PAYLOAD, ValueTo(payload))])
  }

  function EdgeBody(dependent: int, dependency: int): Tree {
    Rec([(DEPENDENT, Int(dependent)), (DEPENDENCY, Int(dependency))])
  }

  function AddBody(node: int, typeTag: Bytes, state: NodeState, key: Option<Bytes>): Tree {
    Rec([(NODE, Int(node)), (TYPE_TAG, Str(typeTag)), (STATE, StateTo(state))] + if key.None? then []
        else [(KEY, Str(key.value))])
  }

  function OpTo(op: DeltaOp): Tree {
    match op
    case CellSet(n, p) => Tagged(CELL_SET, PayloadBody(n, p))
    case SlotValue(n, p) => Tagged(SLOT_VALUE, PayloadBody(n, p))
    case Invalidate(n) => Tagged(INVALIDATE, NodeBody(n))
    case NodeAdd(n, tag, s, k) => Tagged(NODE_ADD, AddBody(n, tag, s, k))
    case NodeRemove(n) => Tagged(NODE_REMOVE, NodeBody(n))
    case EdgeAdd(a, b) => Tagged(EDGE_ADD, EdgeBody(a, b))
    case EdgeRemove(a, b) => Tagged(EDGE_REMOVE, EdgeBody(a, b))
    case QueuePush(n, p) => Tagged(QUEUE_PUSH, PayloadBody(n, p))
    case QueuePop(n) => Tagged(QUEUE_POP, NodeBody(n))
    case QueueClose(n) => Tagged(QUEUE_CLOSE, NodeBody(n))
  }

  /** Exactly the declared keys, each well-typed, and node ids of 64 bits. */
  function NodeFrom(t: Tree): Option<int> {
    if Only(t, {NODE}) then U64From(Get(t, NODE)) else None
  }

  function PayloadFrom(t: Tree): Option<(int, IpcValue)> {
    var n, v := U64From(Get(t, NODE)), ValueFrom(Get(t, PAYLOAD));
    if !Only(t, {NODE, PAYLOAD}) || n.None? || v.None? then None else Some((n.value, v.value))
  }

  function EdgeFrom(t: Tree): Option<(int, int)> {
    var a, b := U64From(Get(t, DEPENDENT)), U64From(Get(t, DEPENDENCY));
    if !Only(t, {DEPENDENT, DEPENDENCY}) || a.None? || b.None? then None else Some((a.value, b.value))
  }

  function AddFrom(t: Tree): Option<DeltaOp> {
    var n, tag := U64From(Get(t, NODE)), StrFrom(Get(t, TYPE_TAG));
    var s, k := StateFrom(Get(t, STATE)), KeyFrom(Get(t, KEY));
    if !Only(t, {NODE, TYPE_TAG, STATE, KEY}) || n.None? || tag.None? || s.None? || k.None? then None
    else Some(NodeAdd(n.value, tag.value, s.value, k.value))
  }

  function NodeOp(t: Tree, make: int -> DeltaOp): Option<DeltaOp> {
    var n := NodeFrom(t);
    if n.None? then None else Some(make(n.value))
  }

  function PayloadOp(t: Tree, make: (int, IpcValue) -> DeltaOp): Option<DeltaOp> {
    var n := PayloadFrom(t);
    if n.None? then None else Some(make(n.value.0, n.value.1))
  }

  function EdgeOp(t: Tree, make: (int, int) -> DeltaOp): Option<DeltaOp> {
    var n := EdgeFrom(t);
    if n.None? then None else Some(make(n.value.0, n.value.1))
  }

  const OP_TAGS: seq<Name> := [CELL_SET, SLOT_VALUE, INVALIDATE, NODE_ADD, NODE_REMOVE, EDGE_ADD, EDGE_REMOVE,
    QUEUE_PUSH, QUEUE_POP, QUEUE_CLOSE]

  /** The first of these names that the key spells. */
  function TagIn(key: Bytes, tags: seq<Name>): Option<Name>
    decreases |tags|
  {
    if tags == [] then None else if key == Spelled(tags[0]) then Some(tags[0]) else TagIn(key, tags[1..])
  }

  /** `DeltaOp.from_wire`: exactly one known variant. */
  function OpFrom(t: Tree): Option<DeltaOp> {
    if !t.Map? || |t.members| != 1 then None
    else
      var tag := TagIn(t.members[0].key, OP_TAGS);
      if tag.None? then None else OpOf(tag.value, t.members[0].value)
  }

  function OpOf(tag: Name, body: Tree): Option<DeltaOp> {
    match tag
    case CELL_SET => PayloadOp(body, (n, p) => CellSet(n, p))
    case SLOT_VALUE => PayloadOp(body, (n, p) => SlotValue(n, p))
    case INVALIDATE => NodeOp(body, n => Invalidate(n))
    case NODE_ADD => AddFrom(body)
    case NODE_REMOVE => NodeOp(body, n => NodeRemove(n))
    case EDGE_ADD => EdgeOp(body, (a, b) => EdgeAdd(a, b))
    case EDGE_REMOVE => EdgeOp(body, (a, b) => EdgeRemove(a, b))
    case QUEUE_PUSH => PayloadOp(body, (n, p) => QueuePush(n, p))
    case QUEUE_POP => NodeOp(body, n => QueuePop(n))
    case QUEUE_CLOSE => NodeOp(body, n => QueueClose(n))
    case _ => None
  }

  datatype Delta = Delta(baseEpoch: int, epoch: int, ops: seq<DeltaOp>)

  function DeltaTo(d: Delta): Tree {
    Rec([(BASE_EPOCH, Int(d.baseEpoch)), (EPOCH, Int(d.epoch)), (OPS, ListTo(d.ops, OpTo))])
  }

  function DeltaFrom(t: Tree): Option<Delta> {
    var b, e, o := U64From(Get(t, BASE_EPOCH)), U64From(Get(t, EPOCH)), ListFrom(Get(t, OPS), OpFrom);
    if !Only(t, {BASE_EPOCH, EPOCH, OPS}) || b.None? || e.None? || o.None? then None
        else Some(Delta(b.value, e.value, o.value))
  }

  // ----- snapshots -----

  datatype NodeSnapshot = NodeSnapshot(node: int, typeTag: Bytes, state: NodeState, key: Option<Bytes>)

  datatype EdgeSnapshot = EdgeSnapshot(dependent: int, dependency: int)

  datatype Snapshot = Snapshot(epoch: int, nodes: seq<NodeSnapshot>, edges: seq<EdgeSnapshot>, roots: seq<int>)

  function NodeSnapshotTo(n: NodeSnapshot): Tree {
    AddBody(n.node, n.typeTag, n.state, n.key)
  }

  function NodeSnapshotFrom(t: Tree): Option<NodeSnapshot> {
    var n, tag := IntFrom(Get(t, NODE)), StrFrom(Get(t, TYPE_TAG));
    var s, k := StateFrom(Get(t, STATE)), KeyFrom(Get(t, KEY));
    if n.None? || tag.None? || s.None? || k.None? then None
    else Some(NodeSnapshot(n.value, tag.value, s.value, k.value))
  }

  function EdgeSnapshotTo(e: EdgeSnapshot): Tree {
    EdgeBody(e.dependent, e.dependency)
  }

  function EdgeSnapshotFrom(t: Tree): Option<EdgeSnapshot> {
    var a, b := IntFrom(Get(t, DEPENDENT)), IntFrom(Get(t, DEPENDENCY));
    if a.None? || b.None? then None else Some(EdgeSnapshot(a.value, b.value))
  }

  function RootTo(n: int): Tree {
    Int(n)
  }

  function RootFrom(t: Tree): Option<int> {
    IntFrom(Some(t))
  }

  function SnapshotTo(s: Snapshot): Tree {
    Rec([(EPOCH, Int(s.epoch)), (NODES, ListTo(s.nodes, NodeSnapshotTo)), (EDGES, ListTo(s.edges, EdgeSnapshotTo)),
        (ROOTS, ListTo(s.roots, RootTo))])
  }

  function SnapshotFrom(t: Tree): Option<Snapshot> {
    var e, n := IntFrom(Get(t, EPOCH)), ListOrEmpty(Get(t, NODES), NodeSnapshotFrom);
    var d, r := ListOrEmpty(Get(t, EDGES), EdgeSnapshotFrom), ListOrEmpty(Get(t, ROOTS), RootFrom);
    if e.None? || n.None? || d.None? || r.None? then None else Some(Snapshot(e.value, n.value, d.value, r.value))
  }

  // ----- the CRDT plane -----

  datatype WireStamp = WireStamp(wallTime: int, logical: int, peer: int)

  datatype CrdtOp = CrdtOp(node: int, key: Option<Bytes>, stamp: WireStamp, state: IpcValue)

  datatype CrdtSync = CrdtSync(frontier: seq<(int, WireStamp)>, ops: seq<CrdtOp>)

  function StampTo(s: WireStamp): Tree {
    Rec([(WALL_TIME, Int(s.wallTime)), (LOGICAL, Int(s.logical)), (PEER, Int(s.peer))])
  }

  function StampFrom(t: Option<Tree>): Option<WireStamp> {
    if t.None? then None
    else
      var w, l, p := IntFrom(Get(t.value, WALL_TIME)), IntFrom(Get(t.value, LOGICAL)), IntFrom(Get(t.value, PEER));
      if w.None? || l.None? || p.None? then None else Some(WireStamp(w.value, l.value, p.value))
  }

  /** The key is always written, null when there is none. */
  function CrdtOpTo(op: CrdtOp): Tree {
    Rec([(NODE, Int(op.node)), (KEY, if op.key.None? then Nil else Str(op.key.value)), (STAMP, StampTo(op.stamp)),
        (STATE, ValueTo(op.state))])
  }

  function CrdtOpFrom(t: Tree): Option<CrdtOp> {
    var n, k := IntFrom(Get(t, NODE)), KeyFrom(Get(t, KEY));
    var s, v := StampFrom(Get(t, STAMP)), ValueFrom(Get(t, STATE));
    if n.None? || k.None? || s.None? || v.None? then None else Some(CrdtOp(n.value, k.value, s.value, v.value))
  }

  function MarkTo(m: (int, WireStamp)): Tree {
    Arr([Int(m.0), StampTo(m.1)])
  }

  function MarkFrom(t: Tree): Option<(int, WireStamp)> {
    if !t.Arr? || |t.items| < 2 then None
    else
      var p, s := IntFrom(Some(t.items[0])), StampFrom(Some(t.items[1]));
      if p.None? || s.None? then None else Some((p.value, s.value))
  }

  function SyncTo(s: CrdtSync): Tree {
    Rec([(FRONTIER, ListTo(s.frontier, MarkTo)), (OPS, ListTo(s.ops, CrdtOpTo))])
  }

  function SyncFrom(t: Tree): Option<CrdtSync> {
    var f, o := ListOrEmpty(Get(t, FRONTIER), MarkFrom), ListOrEmpty(Get(t, OPS), CrdtOpFrom);
    if !t.Map? || f.None? || o.None? then None else Some(CrdtSync(f.value, o.value))
  }

  // ----- messages -----

  /** The five variants as optional parts; a control frame is its one epoch. */
  datatype IpcMessage = IpcMessage(
    snapshot: Option<Snapshot>,
    delta: Option<Delta>,
    crdtSync: Option<CrdtSync>,
    resyncRequest: Option<int>,
    outboxAck: Option<int>
  )

  const NO_MESSAGE := IpcMessage(None, None, None, None, None)

  function RequestTo(epoch: int): Tree {
    Rec([(FROM_EPOCH, Int(epoch))])
  }

  function AckTo(epoch: int): Tree {
    Rec([(THROUGH_EPOCH, Int(epoch))])
  }

  /** `IpcMessage.to_wire`: the first part there is; none at all is refused. */
  function ToWire(m: IpcMessage): Option<Tree> {
    if m.snapshot.Some? then Some(Tagged(SNAPSHOT, SnapshotTo(m.snapshot.value)))
    else if m.delta.Some? then Some(Tagged(DELTA, DeltaTo(m.delta.value)))
    else if m.crdtSync.Some? then Some(Tagged(CRDT_SYNC, SyncTo(m.crdtSync.value)))
    else if m.resyncRequest.Some? then Some(Tagged(RESYNC_REQUEST, RequestTo(m.resyncRequest.value)))
    else if m.outboxAck.Some? then Some(Tagged(OUTBOX_ACK, AckTo(m.outboxAck.value)))
    else None
  }

  function FromWire(t: Tree): Option<IpcMessage> {
    var s, d, c := Variant(t, SNAPSHOT), Variant(t, DELTA), Variant(t, CRDT_SYNC);
    var r, a := Variant(t, RESYNC_REQUEST), Variant(t, OUTBOX_ACK);
    if s.Some? then var x := SnapshotFrom(s.value); if x.None? then None else Some(NO_MESSAGE.(snapshot := x))
    else if d.Some? then var x := DeltaFrom(d.value); if x.None? then None else Some(NO_MESSAGE.(delta := x))
    else if c.Some? then var x := SyncFrom(c.value); if x.None? then None else Some(NO_MESSAGE.(crdtSync := x))
    else if r.Some? then var x := IntFrom(Get(r.value, FROM_EPOCH)); if x.None? then None
        else Some(NO_MESSAGE.(resyncRequest := x))
    else if a.Some? then var x := IntFrom(Get(a.value, THROUGH_EPOCH)); if x.None? then None
        else Some(NO_MESSAGE.(outboxAck := x))
    else None
  }

  /** `encode_msgpack`; an encoding error and an empty message are both refusals. */
  function EncodeMsgpack(m: IpcMessage): Option<Bytes> {
    var t := ToWire(m);
    if t.None? || Pack(t.value).Err? then None else Some(Pack(t.value).value)
  }

  /** `decode_msgpack`. */
  function DecodeMsgpack(utf8: Utf8, d: Bytes): Option<IpcMessage> {
    var t := Unpacked(utf8, d);
    if t.Err? then None else FromWire(t.value)
  }
}
