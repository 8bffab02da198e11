/** The wire form of messages written out with literal names, and what reading refuses. */
module IpcForms {
  import opened Wrappers
  import opened Bytes
  import opened WireNames
  import opened Msgpack
  import opened MsgpackRoundTrip
  import opened IpcWire
  import opened IpcRoundTrip

  function Ascii(s: string): Bytes {
    seq(|s|, i requires 0 <= i < |s| => s[i] as int % 256)
  }

  /** A dictionary with literal keys, in this order. */
  function Plain(fields: seq<(string, Tree)>): Tree {
    Map(seq(|fields|, i requires 0 <= i < |fields| => Member(Ascii(fields[i].0), fields[i].1)))
  }

  lemma {:induction false} SpelledAscii(n: Name)
    ensures Spelled(n) == Ascii(Text(n))
  {
  }

  lemma {:induction false} RecPlain(fields: seq<(Name, Tree)>, plain: seq<(string, Tree)>)
    requires |fields| == |plain|
    requires forall i :: 0 <= i < |fields| ==> Text(fields[i].0) == plain[i].0 && fields[i].1 == plain[i].1
    ensures Rec(fields) == Plain(plain)
  {
    hide Text, Spelled, Ascii;
    forall i | 0 <= i < |fields|
      ensures Member(Spelled(fields[i].0), fields[i].1) == Member(Ascii(plain[i].0), plain[i].1)
    {
      SpelledAscii(fields[i].0);
    }
  }

  lemma {:induction false} FieldTexts1()
    ensures Text(NODE) == "node" && Text(TYPE_TAG) == "type_tag" && Text(STATE) == "state"
    ensures Text(KEY) == "key" && Text(DEPENDENT) == "dependent" && Text(DEPENDENCY) == "dependency"
  {
  }

  lemma {:induction false} FieldTexts2()
    ensures Text(EPOCH) == "epoch" && Text(NODES) == "nodes" && Text(EDGES) == "edges"
    ensures Text(ROOTS) == "roots" && Text(BASE_EPOCH) == "base_epoch" && Text(OPS) == "ops"
  {
  }

  lemma {:induction false} FieldTexts3()
    ensures Text(PAYLOAD) == "payload" && Text(WALL_TIME) == "wall_time" && Text(LOGICAL) == "logical"
    ensures Text(PEER) == "peer" && Text(STAMP) == "stamp" && Text(FRONTIER) == "frontier"
  {
  }

  lemma {:induction false} FieldTexts4()
    ensures Text(FROM_EPOCH) == "from_epoch" && Text(THROUGH_EPOCH) == "through_epoch" && Text(OFFSET) == "offset"
    ensures Text(LEN) == "len" && Text(GENERATION) == "generation" && Text(CHECKSUM) == "checksum"
  {
  }

  lemma {:induction false} FieldTexts5()
    ensures Text(BACKEND) == "backend"
  {
  }

  lemma {:induction false} FieldTexts()
    ensures Text(NODE) == "node" && Text(TYPE_TAG) == "type_tag" && Text(STATE) == "state"
    ensures Text(KEY) == "key" && Text(DEPENDENT) == "dependent" && Text(DEPENDENCY) == "dependency"
    ensures Text(EPOCH) == "epoch" && Text(NODES) == "nodes" && Text(EDGES) == "edges"
    ensures Text(ROOTS) == "roots" && Text(BASE_EPOCH) == "base_epoch" && Text(OPS) == "ops"
    ensures Text(PAYLOAD) == "payload" && Text(WALL_TIME) == "wall_time" && Text(LOGICAL) == "logical"
    ensures Text(PEER) == "peer" && Text(STAMP) == "stamp" && Text(FRONTIER) == "frontier"
    ensures Text(FROM_EPOCH) == "from_epoch" && Text(THROUGH_EPOCH) == "through_epoch" && Text(OFFSET) == "offset"
    ensures Text(LEN) == "len" && Text(GENERATION) == "generation" && Text(CHECKSUM) == "checksum"
    ensures Text(BACKEND) == "backend"
  {
    FieldTexts1();
    FieldTexts2();
    FieldTexts3();
    FieldTexts4();
    FieldTexts5();
    hide Text;
  }

  lemma {:induction false} TagTexts1()
    ensures Text(SNAPSHOT) == "Snapshot" && Text(DELTA) == "Delta" && Text(CRDT_SYNC) == "CrdtSync"
  {
  }

  lemma {:induction false} TagTexts2()
    ensures Text(RESYNC_REQUEST) == "ResyncRequest" && Text(OUTBOX_ACK) == "OutboxAck" && Text(CELL_SET) == "CellSet"
  {
  }

  lemma {:induction false} TagTexts3()
    ensures Text(SLOT_VALUE) == "SlotValue" && Text(INVALIDATE) == "Invalidate" && Text(NODE_ADD) == "NodeAdd"
  {
  }

  lemma {:induction false} TagTexts4()
    ensures Text(NODE_REMOVE) == "NodeRemove" && Text(EDGE_ADD) == "EdgeAdd" && Text(EDGE_REMOVE) == "EdgeRemove"
  {
  }

  lemma {:induction false} TagTexts5()
    ensures Text(QUEUE_PUSH) == "QueuePush" && Text(QUEUE_POP) == "QueuePop" && Text(QUEUE_CLOSE) == "QueueClose"
  {
  }

  lemma {:induction false} TagTexts6()
    ensures Text(INLINE) == "Inline" && Text(SHARED_BLOB) == "SharedBlob" && Text(PAYLOAD_TAG) == "Payload"
  {
  }

  lemma {:induction false} TagTexts7()
    ensures Text(OPAQUE) == "Opaque" && Text(SHM) == "shm" && Text(ARROW) == "arrow"
  {
  }

  lemma {:induction false} TagTexts8()
    ensures Text(IN_PROCESS) == "in_process"
  {
  }

  lemma {:induction false} TagTexts()
    ensures Text(SNAPSHOT) == "Snapshot" && Text(DELTA) == "Delta" && Text(CRDT_SYNC) == "CrdtSync"
    ensures Text(RESYNC_REQUEST) == "ResyncRequest" && Text(OUTBOX_ACK) == "OutboxAck" && Text(CELL_SET) == "CellSet"
    ensures Text(SLOT_VALUE) == "SlotValue" && Text(INVALIDATE) == "Invalidate" && Text(NODE_ADD) == "NodeAdd"
    ensures Text(NODE_REMOVE) == "NodeRemove" && Text(EDGE_ADD) == "EdgeAdd" && Text(EDGE_REMOVE) == "EdgeRemove"
    ensures Text(QUEUE_PUSH) == "QueuePush" && Text(QUEUE_POP) == "QueuePop" && Text(QUEUE_CLOSE) == "QueueClose"
    ensures Text(INLINE) == "Inline" && Text(SHARED_BLOB) == "SharedBlob" && Text(PAYLOAD_TAG) == "Payload"
    ensures Text(OPAQUE) == "Opaque" && Text(SHM) == "shm" && Text(ARROW) == "arrow"
    ensures Text(IN_PROCESS) == "in_process"
  {
    TagTexts1();
    TagTexts2();
    TagTexts3();
    TagTexts4();
    TagTexts5();
    TagTexts6();
    TagTexts7();
    TagTexts8();
    hide Text;
  }

  lemma {:induction false} TaggedPlain(tag: Name, body: Tree)
    ensures Tagged(tag, body) == Plain([(Text(tag), body)])
  {
    RecPlain([(tag, body)], [(Text(tag), body)]);
  }

  // ----- written forms -----

  lemma {:induction false} BodiesWritten(n: int, a: int, b: int, v: IpcValue)
    ensures NodeBody(n) == Plain([("node", Int(n))])
    ensures PayloadBody(n, v) == Plain([("node", Int(n)), ("payload", ValueTo(v))])
    ensures EdgeBody(a, b) == Plain([("dependent", Int(a)), ("dependency", Int(b))])
  {
    FieldTexts();
    hide Text, Ascii, Spelled, StateTo, ValueTo;
    RecPlain([(NODE, Int(n))], [("node", Int(n))]);
    RecPlain([(NODE, Int(n)), (PAYLOAD, ValueTo(v))], [("node", Int(n)), ("payload", ValueTo(v))]);
    RecPlain([(DEPENDENT, Int(a)), (DEPENDENCY, Int(b))], [("dependent", Int(a)), ("dependency", Int(b))]);
  }

  lemma {:induction false} AddWritten(n: int, tag: Bytes, s: NodeState, key: Bytes)
    ensures AddBody(n, tag, s, None) == Plain([("node", Int(n)), ("type_tag", Str(tag)), ("state", StateTo(s))])
    ensures AddBody(n, tag, s, Some(key))
            == Plain([("node", Int(n)), ("type_tag", Str(tag)), ("state", StateTo(s)), ("key", Str(key))])
  {
    FieldTexts();
    hide Text, Ascii, Spelled, StateTo, ValueTo;
    var three := [(NODE, Int(n)), (TYPE_TAG, Str(tag)), (STATE, StateTo(s))];
    assert three + [] == three;
    RecPlain(three, [("node", Int(n)), ("type_tag", Str(tag)), ("state", StateTo(s))]);
    RecPlain(three + [(KEY, Str(key))],
        [("node", Int(n)), ("type_tag", Str(tag)), ("state", StateTo(s)), ("key", Str(key))]);
  }

  /** The tag of each delta operation. */
  function OpTagText(op: DeltaOp): string {
    match op
    case CellSet(_, _) => "CellSet"
    case SlotValue(_, _) => "SlotValue"
    case Invalidate(_) => "Invalidate"
    case NodeAdd(_, _, _, _) => "NodeAdd"
    case NodeRemove(_) => "NodeRemove"
    case EdgeAdd(_, _) => "EdgeAdd"
    case EdgeRemove(_, _) => "EdgeRemove"
    case QueuePush(_, _) => "QueuePush"
    case QueuePop(_) => "QueuePop"
    case QueueClose(_) => "QueueClose"
  }

  function OpBody(op: DeltaOp): Tree {
    match op
    case CellSet(n, v) => PayloadBody(n, v)
    case SlotValue(n, v) => PayloadBody(n, v)
    case QueuePush(n, v) => PayloadBody(n, v)
    case NodeAdd(n, tag, s, k) => AddBody(n, tag, s, k)
    case EdgeAdd(a, b) => EdgeBody(a, b)
    case EdgeRemove(a, b) => EdgeBody(a, b)
    case _ => NodeBody(op.node)
  }

  lemma {:induction false} OpIs(op: DeltaOp)
    ensures OpTo(op) == Tagged(OpName(op), OpBody(op))
  {
    hide Tagged, NodeBody, PayloadBody, EdgeBody, AddBody;
  }

  function OpName(op: DeltaOp): Name {
    match op
    case CellSet(_, _) => CELL_SET
    case SlotValue(_, _) => SLOT_VALUE
    case Invalidate(_) => INVALIDATE
    case NodeAdd(_, _, _, _) => NODE_ADD
    case NodeRemove(_) => NODE_REMOVE
    case EdgeAdd(_, _) => EDGE_ADD
    case EdgeRemove(_, _) => EDGE_REMOVE
    case QueuePush(_, _) => QUEUE_PUSH
    case QueuePop(_) => QUEUE_POP
    case QueueClose(_) => QUEUE_CLOSE
  }

  lemma {:induction false} OpWritten(op: DeltaOp)
    ensures OpTo(op) == Plain([(OpTagText(op), OpBody(op))])
  {
    TagTexts();
    hide Text, Tagged, Plain, OpBody;
    OpIs(op);
    TaggedPlain(OpName(op), OpBody(op));
  }

  lemma {:induction false} BlobWritten(b: BlobRef)
    ensures var five := [("offset", Int(b.offset)), ("len", Int(b.len)), ("generation", Int(b.generation)),
                         ("epoch", Int(b.epoch)), ("checksum", Int(b.checksum))];
            BlobTo(b) == Plain(match b.backend
                               case Shm => five
                               case Arrow => five + [("backend", Str(Ascii("arrow")))]
                               case InProcess => five + [("backend", Str(Ascii("in_process")))])
  {
    FieldTexts();
    TagTexts();
    SpelledAscii(ARROW);
    SpelledAscii(IN_PROCESS);
    hide Text, Spelled, Ascii, Plain, Rec;
    var five := [("offset", Int(b.offset)), ("len", Int(b.len)), ("generation", Int(b.generation)),
                 ("epoch", Int(b.epoch)), ("checksum", Int(b.checksum))];
    assert five + [] == five && BlobFields(b) + [] == BlobFields(b);
    match b.backend
    case Shm => RecPlain(BlobFields(b), five);
    case Arrow => RecPlain(BlobFields(b) + BackendFields(Arrow), five + [("backend", Str(Ascii("arrow")))]);
    case InProcess =>
      RecPlain(BlobFields(b) + BackendFields(InProcess), five + [("backend", Str(Ascii("in_process")))]);
  }

  lemma {:induction false} ValuesWritten(data: Bytes, b: BlobRef)
    ensures ValueTo(Inline(data)) == Plain([("Inline", BytesTo(data))])
    ensures ValueTo(SharedBlob(b)) == Plain([("SharedBlob", BlobTo(b))])
    ensures StateTo(Payload(data)) == Plain([("Payload", BytesTo(data))])
    ensures StateTo(SharedState(b)) == Plain([("SharedBlob", BlobTo(b))])
    ensures StateTo(Opaque) == Str(Ascii("Opaque"))
  {
    TagTexts();
    hide Text;
    TaggedPlain(INLINE, BytesTo(data));
    TaggedPlain(SHARED_BLOB, BlobTo(b));
    TaggedPlain(PAYLOAD_TAG, BytesTo(data));
    SpelledAscii(OPAQUE);
    hide Tagged, Plain, Spelled, Ascii, BlobTo, BytesTo;
  }

  lemma {:induction false} DeltaWritten(d: Delta)
    ensures DeltaTo(d)
            == Plain([("base_epoch", Int(d.baseEpoch)), ("epoch", Int(d.epoch)), ("ops", ListTo(d.ops, OpTo))])
  {
    FieldTexts();
    hide Text, Plain, Rec, ListTo, OpTo;
    RecPlain([(BASE_EPOCH, Int(d.baseEpoch)), (EPOCH, Int(d.epoch)), (OPS, ListTo(d.ops, OpTo))],
        [("base_epoch", Int(d.baseEpoch)), ("epoch", Int(d.epoch)), ("ops", ListTo(d.ops, OpTo))]);
  }

  lemma {:induction false} SnapshotWritten(s: Snapshot)
    ensures SnapshotTo(s)
            == Plain([("epoch", Int(s.epoch)), ("nodes", ListTo(s.nodes, NodeSnapshotTo)),
                      ("edges", ListTo(s.edges, EdgeSnapshotTo)), ("roots", ListTo(s.roots, RootTo))])
  {
    FieldTexts();
    hide Text, Plain, Rec, ListTo, NodeSnapshotTo, EdgeSnapshotTo, RootTo;
    RecPlain([(EPOCH, Int(s.epoch)), (NODES, ListTo(s.nodes, NodeSnapshotTo)),
              (EDGES, ListTo(s.edges, EdgeSnapshotTo)), (ROOTS, ListTo(s.roots, RootTo))],
        [("epoch", Int(s.epoch)), ("nodes", ListTo(s.nodes, NodeSnapshotTo)),
         ("edges", ListTo(s.edges, EdgeSnapshotTo)), ("roots", ListTo(s.roots, RootTo))]);
  }

  lemma {:induction false} SyncWritten(c: CrdtSync)
    ensures SyncTo(c) == Plain([("frontier", ListTo(c.frontier, MarkTo)), ("ops", ListTo(c.ops, CrdtOpTo))])
  {
    FieldTexts();
    hide Text, Plain, Rec, ListTo, MarkTo, CrdtOpTo;
    RecPlain([(FRONTIER, ListTo(c.frontier, MarkTo)), (OPS, ListTo(c.ops, CrdtOpTo))],
        [("frontier", ListTo(c.frontier, MarkTo)), ("ops", ListTo(c.ops, CrdtOpTo))]);
  }

  lemma {:induction false} CrdtOpWritten(op: CrdtOp)
    ensures CrdtOpTo(op)
            == Plain([("node", Int(op.node)), ("key", if op.key.None? then Nil else Str(op.key.value)),
                      ("stamp", StampTo(op.stamp)), ("state", ValueTo(op.state))])
  {
    FieldTexts();
    hide Text, Plain, Rec, StampTo, ValueTo;
    var key := if op.key.None? then Nil else Str(op.key.value);
    RecPlain([(NODE, Int(op.node)), (KEY, key), (STAMP, StampTo(op.stamp)), (STATE, ValueTo(op.state))],
        [("node", Int(op.node)), ("key", key), ("stamp", StampTo(op.stamp)), ("state", ValueTo(op.state))]);
  }

  lemma {:induction false} StampWritten(t: WireStamp)
    ensures StampTo(t) == Plain([("wall_time", Int(t.wallTime)), ("logical", Int(t.logical)), ("peer", Int(t.peer))])
  {
    FieldTexts();
    hide Text, Plain, Rec;
    RecPlain([(WALL_TIME, Int(t.wallTime)), (LOGICAL, Int(t.logical)), (PEER, Int(t.peer))],
        [("wall_time", Int(t.wallTime)), ("logical", Int(t.logical)), ("peer", Int(t.peer))]);
  }

  lemma {:induction false} MessagesWritten(s: Snapshot, d: Delta, c: CrdtSync, epoch: int)
    ensures ToWire(NO_MESSAGE.(snapshot := Some(s))) == Some(Plain([("Snapshot", SnapshotTo(s))]))
    ensures ToWire(NO_MESSAGE.(delta := Some(d))) == Some(Plain([("Delta", DeltaTo(d))]))
    ensures ToWire(NO_MESSAGE.(crdtSync := Some(c))) == Some(Plain([("CrdtSync", SyncTo(c))]))
    ensures ToWire(NO_MESSAGE.(resyncRequest := Some(epoch)))
            == Some(Plain([("ResyncRequest", Plain([("from_epoch", Int(epoch))]))]))
    ensures ToWire(NO_MESSAGE.(outboxAck := Some(epoch)))
            == Some(Plain([("OutboxAck", Plain([("through_epoch", Int(epoch))]))]))
    ensures ToWire(NO_MESSAGE) == None
  {
    TagTexts();
    FieldTexts();
    hide Text, Plain, Rec, Tagged, SnapshotTo, DeltaTo, SyncTo;
    TaggedPlain(SNAPSHOT, SnapshotTo(s));
    TaggedPlain(DELTA, DeltaTo(d));
    TaggedPlain(CRDT_SYNC, SyncTo(c));
    TaggedPlain(RESYNC_REQUEST, RequestTo(epoch));
    TaggedPlain(OUTBOX_ACK, AckTo(epoch));
    RecPlain([(FROM_EPOCH, Int(epoch))], [("from_epoch", Int(epoch))]);
    RecPlain([(THROUGH_EPOCH, Int(epoch))], [("through_epoch", Int(epoch))]);
  }

  // ----- what is refused -----

  /** A key that is none of the declared ones. */
  ghost predicate Undeclared(t: Tree, names: set<Name>) {
    t.Map? && exists i :: 0 <= i < |t.members| && !Declared(t.members[i].key, names)
  }

  /** The strict readers of deltas refuse anything but a dictionary, undeclared keys, missing or
      ill-typed values, and numbers outside 64 bits. */
  lemma {:induction false} StrictReaders(t: Tree)
    ensures NodeFrom(t).Some? <==> t.Map? && !Undeclared(t, {NODE}) && U64From(Get(t, NODE)).Some?
    ensures PayloadFrom(t).Some?
            <==> (t.Map? && !Undeclared(t, {NODE, PAYLOAD}) && U64From(Get(t, NODE)).Some?
                  && ValueFrom(Get(t, PAYLOAD)).Some?)
    ensures EdgeFrom(t).Some?
            <==> (t.Map? && !Undeclared(t, {DEPENDENT, DEPENDENCY}) && U64From(Get(t, DEPENDENT)).Some?
                  && U64From(Get(t, DEPENDENCY)).Some?)
    ensures AddFrom(t).Some?
            <==> (t.Map? && !Undeclared(t, {NODE, TYPE_TAG, STATE, KEY}) && U64From(Get(t, NODE)).Some?
                  && StrFrom(Get(t, TYPE_TAG)).Some? && StateFrom(Get(t, STATE)).Some? && KeyFrom(Get(t, KEY)).Some?)
    ensures DeltaFrom(t).Some?
            <==> (t.Map? && !Undeclared(t, {BASE_EPOCH, EPOCH, OPS}) && U64From(Get(t, BASE_EPOCH)).Some?
                  && U64From(Get(t, EPOCH)).Some? && ListFrom(Get(t, OPS), OpFrom).Some?)
    ensures forall v: Option<Tree> ::
              U64From(v).Some? <==> v.Some? && v.value.Int? && 0 <= v.value.n < 0x1_0000_0000_0000_0000
  {
    hide Get, Declared, ValueFrom, StateFrom, KeyFrom, ListFrom;
  }

  /** An operation is one dictionary entry under a known tag. */
  lemma {:induction false} OneKnownVariant(t: Tree)
    requires OpFrom(t).Some?
    ensures t.Map? && |t.members| == 1 && exists n :: n in OP_TAGS && t.members[0].key == Spelled(n)
    ensures t.members[0].key == Ascii(OpTagText(OpFrom(t).value))
  {
    TagTexts();
    hide Text, Spelled, OpOf, OpTagText;
    TagIsIn(t.members[0].key, OP_TAGS);
    var tag := TagIn(t.members[0].key, OP_TAGS).value;
    SpelledAscii(tag);
    OpOfTag(tag, t.members[0].value);
  }

  lemma {:induction false} TagIsIn(key: Bytes, tags: seq<Name>)
    ensures TagIn(key, tags).Some? ==> TagIn(key, tags).value in tags && key == Spelled(TagIn(key, tags).value)
    decreases |tags|
  {
    hide Spelled;
    if tags != [] && key != Spelled(tags[0]) { TagIsIn(key, tags[1..]); }
  }

  lemma {:induction false} OpOfTag(tag: Name, body: Tree)
    ensures OpOf(tag, body).Some? ==> Text(tag) == OpTagText(OpOf(tag, body).value)
  {
    TagTexts();
    hide Text, NodeFrom, PayloadFrom, EdgeFrom, Only, StrFrom, StateFrom, KeyFrom, U64From, Get;
  }

  /** The lenient readers: a missing list is empty ... */
  lemma {:induction false} MissingListsAreEmpty(epoch: int, t: Tree)
    ensures SnapshotFrom(Plain([("epoch", Int(epoch))])) == Some(Snapshot(epoch, [], [], []))
    ensures SyncFrom(Map([])) == Some(CrdtSync([], [])) && (!t.Map? ==> SyncFrom(t) == None)
  {
    FieldTexts();
    hide Text, Plain, Rec, Spelled, Get;
    var one := [(EPOCH, Int(epoch))];
    RecPlain(one, [("epoch", Int(epoch))]);
    RecGet(one, 0);
    RecLacks(one, NODES);
    RecLacks(one, EDGES);
    RecLacks(one, ROOTS);
    NothingThere(FRONTIER);
    NothingThere(OPS);
  }

  lemma {:induction false} NothingThere(n: Name)
    ensures Get(Map([]), n) == None
  {
    hide Spelled;
  }

  /** ... a missing or null key or backend is the default one, and a frontier mark may have more
      than two parts. */
  lemma {:induction false} DefaultsRead(m: (int, WireStamp), more: seq<Tree>)
    ensures KeyFrom(None) == Some(None) && KeyFrom(Some(Nil)) == Some(None)
    ensures BackendFrom(None) == Some(Shm) && BackendFrom(Some(Nil)) == Some(Shm)
    ensures BackendFrom(Some(Str(Ascii("shm")))) == Some(Shm)
    ensures StampFrom(Some(StampTo(m.1))) == Some(m.1) ==> MarkFrom(Arr([Int(m.0), StampTo(m.1)] + more)) == Some(m)
  {
    TagTexts();
    SpelledAscii(SHM);
    hide Text, Spelled, Ascii, StampTo, StampFrom;
  }

  /** A delta has to have its list. */
  lemma {:induction false} DeltaNeedsOps(base: int, epoch: int)
    ensures DeltaFrom(Plain([("base_epoch", Int(base)), ("epoch", Int(epoch))])) == None
  {
    FieldTexts();
    hide Text, Plain, Rec, Spelled, Get, Only;
    var two := [(BASE_EPOCH, Int(base)), (EPOCH, Int(epoch))];
    RecPlain(two, [("base_epoch", Int(base)), ("epoch", Int(epoch))]);
    RecLacks(two, OPS);
  }

  // ----- node keys -----

  /** The parts of a path between its slashes. */
  function Split(path: Bytes): (r: seq<Bytes>)
    ensures r != []
    decreases |path|
  {
    if path == [] then [[]]
    else
      var rest := Split(path[1..]);
      if path[0] == SLASH then [[]] + rest else [[path[0]] + rest[0]] + rest[1..]
  }

  lemma {:induction false} SplitCounts(path: Bytes)
    ensures |Split(path)| == Segments(path)
    decreases |path|
  {
    if path != [] { SplitCounts(path[1..]); }
  }

  predicate AllParts(parts: seq<Bytes>) {
    forall i :: 0 <= i < |parts| ==> parts[i] != []
  }

  /** No slash is first, last or behind another. */
  predicate SlashesApart(path: Bytes) {
    && path != [] && path[0] != SLASH && path[|path| - 1] != SLASH
    && forall i :: 0 < i < |path| ==> !(path[i - 1] == SLASH && path[i] == SLASH)
  }

  /** Then and only then no part is empty. */
  lemma {:induction false} NoEmptyPartIff(path: Bytes)
    ensures AllParts(Split(path)) <==> SlashesApart(path)
    decreases |path|
  {
    if path == [] || path[0] == SLASH {
      assert Split(path)[0] == [];
    } else {
      var tail := path[1..];
      var rest := Split(tail);
      assert Split(path) == [[path[0]] + rest[0]] + rest[1..];
      FirstPartGrows(path[0], rest);
      if tail == [] {
        assert rest[1..] == [] && AllParts(rest[1..]);
      } else if tail[0] == SLASH {
        assert rest[1..] == Split(tail[1..]);
        NoEmptyPartIff(tail[1..]);
        SlashThen(path[0], tail[1..]);
        assert path == [path[0], SLASH] + tail[1..];
      } else {
        assert rest[0] != [] && rest == [rest[0]] + rest[1..];
        NoEmptyPartIff(tail);
        PlainThen(path[0], tail);
        assert path == [path[0]] + tail;
      }
    }
  }

  lemma {:induction false} FirstPartGrows(c: Byte, rest: seq<Bytes>)
    requires rest != []
    ensures AllParts([[c] + rest[0]] + rest[1..]) <==> AllParts(rest[1..])
    ensures rest[0] != [] ==> (AllParts(rest) <==> AllParts(rest[1..]))
  {
    var grown := [[c] + rest[0]] + rest[1..];
    assert forall i :: 0 < i < |rest| ==> grown[i] == rest[i] == rest[1..][i - 1];
    assert forall i :: 0 <= i < |rest| - 1 ==> rest[1..][i] == rest[i + 1] == grown[i + 1];
  }

  lemma {:induction false} SlashThen(c: Byte, path: Bytes)
    requires c != SLASH
    ensures SlashesApart([c, SLASH] + path) <==> SlashesApart(path)
  {
    var p := [c, SLASH] + path;
    assert p[0] == c && p[1] == SLASH && forall i :: 0 <= i < |path| ==> p[i + 2] == path[i];
    assert p[|p| - 1] == if path == [] then SLASH else path[|path| - 1];
    if SlashesApart(path) {
      forall i | 0 < i < |p| ensures !(p[i - 1] == SLASH && p[i] == SLASH) {
        if i > 2 { assert path[i - 3] == p[i - 1] && path[i - 2] == p[i]; }
      }
    }
    if SlashesApart(p) && path != [] {
      assert p[2] == path[0];
      forall i | 0 < i < |path| ensures !(path[i - 1] == SLASH && path[i] == SLASH) {
        assert p[i + 1] == path[i - 1] && p[i + 2] == path[i];
      }
    }
  }

  lemma {:induction false} PlainThen(c: Byte, path: Bytes)
    requires c != SLASH && path != [] && path[0] != SLASH
    ensures SlashesApart([c] + path) <==> SlashesApart(path)
  {
    var p := [c] + path;
    assert forall i :: 0 <= i < |path| ==> p[i + 1] == path[i];
    assert p[|p| - 1] == path[|path| - 1];
    if SlashesApart(path) {
      forall i | 0 < i < |p| ensures !(p[i - 1] == SLASH && p[i] == SLASH) {
        if i > 1 { assert p[i - 1] == path[i - 2] && p[i] == path[i - 1]; }
      }
    }
    if SlashesApart(p) {
      forall i | 0 < i < |path| ensures !(path[i - 1] == SLASH && path[i] == SLASH) {
        assert p[i] == path[i - 1] && p[i + 1] == path[i];
      }
    }
  }

  /** A node key is up to 32 parts, none of them empty, in up to 1024 bytes. */
  lemma {:induction false} KeyValidIff(path: Bytes)
    ensures KeyValid(path)
            <==> |path| <= 1024 && |Split(path)| <= 32 && AllParts(Split(path))
  {
    SplitCounts(path);
    NoEmptyPartIff(path);
  }
}
